# anonim-bot, modelled in Dafny

anonim-bot is a Telegram bot for anonymous questions. Each user gets a personal link
`?start=<token>`. Someone who opens a link is put in a "waiting for question" state, and the
next message they send is relayed to the link's owner. The sender's identity stays hidden
and a reply button carries the sender's own link. Admins can broadcast a message to every
user in batches, mute a user for a number of minutes, unmute them, look a user up, and page
through the most recent users.

This project models the logic of the two handler modules, `main.py` and `admin.py`, as
imperative Dafny over three abstract stores:

- `Store.Database` holds the `users` table (by `user_id`: username, name, token, `is_admin`,
  `created_at`), the `muted_users` table (`MuteTable.Table`: `until` and `reason` per user)
  and the append-only `message_log`. Its `Valid()` states the schema's constraints that the
  handlers rely on: tokens are unique, and a mute record exists only for a known user.
- `Conversation.Sessions` is the dispatcher's per-user FSM storage: one state and a small
  data record (`target_id`, `user_id`, `muted_until`) per user. An absent key is the cleared
  state. Its `Valid()` states that every state in which a handler reads a data key holds
  that key.
- Everything outside the process is a parameter:
  - the current time `now`, as integer seconds;
  - the random draws behind a new token;
  - the outcome of every Telegram call (`outcomes`, `outcome`);
  - the row order the store returns for un-ordered and ordered user listings.

Modules:

- `Text`: Python's `str.strip()` and `int()` on the stripped text, as the handlers use them.
- `Tokens`: `generate_token`.
- `Paging`: the arithmetic of `show_recent_users`.
- `MuteTable`: the mute table as a value, with lazy expiry, upsert and delete.
- `Store`: the database class and the ensure-identity step.
- `Conversation`: the FSM storage class.
- `Broadcast`: the batched delivery loop of `process_broadcast` and what its progress
  notices report.
- `MainHandlers`: `/start` and the question relay.
- `AdminHandlers`: the broadcast, mute, unmute, search and recent-users handlers.

In these places the code behaves differently from what its comments or a first reading
suggest. The model follows the code:

- The comment at admin.py:163 says "Progress update every 100 users", and the condition at
  admin.py:164 tests `(i + 30) % 100 == 0`. Batches start at multiples of 30, so the test
  holds only at multiples of 300. `Broadcast.ProgressValues` proves that the notices report
  exactly the multiples of 300 below the total, and then the total.
- The duration of a mute is any integer `int()` accepts (admin.py:200), including zero and
  negative values, which give a record that has already expired.
- Only `/admin` checks `is_admin` (admin.py:40). The callback and state handlers run for
  whoever reaches their state.
- The question handler clears the sender's state at main.py:245, but not on every path. A
  message of an unsupported kind returns before the clear (main.py:216-218). So does a
  Telegram error other than the two caught at main.py:240-243. In both cases the sender
  stays in `waiting_for_question`.
- The id in the search and unmute flows is not re-prompted on invalid input. Both handlers
  clear the state before they parse the id.

## Model

| member | source | states |
|---|---|---|
| `Text.SkipSpace` | admin.py:190 | the scan from `i` stops at the first character that is not whitespace (or the end), and everything it passes over is whitespace |
| `Text.SkipSpaceBack` | admin.py:190 | the scan back from `j` stops just after the last character that is not whitespace (or at 0), and everything it passes over is whitespace |
| `Text.Strip` | admin.py:190 | the result has no whitespace at either end; it is empty iff the text is all whitespace; otherwise it is the slice of the text with only whitespace before and after it |
| `Text.StripPadded` | admin.py:215 | stripping whitespace padding from a text with no whitespace at its ends gives back exactly that text |
| `Text.StripIdempotent` | admin.py:240 | stripping twice is stripping once |
| `Text.ParseInt` | admin.py:190 | a value exactly for a non-empty digit string, or a sign followed by a non-empty digit string; the value is the decimal value of the digits, negated after '-' |
| `Text.NatToString` | admin.py:283 | the decimal rendering is a non-empty digit string whose value is the number |
| `Text.ParseIntToString` | admin.py:264 | `int(str(n)) == n` for every integer, so an id shown by the bot parses back to itself |
| `Text.ParsePaddedInt` | admin.py:200 | a decimal number with whitespace around it parses to that number after `strip()` |
| `Text.ParseRejectsOtherCharacters` | admin.py:194-195 | any character other than a digit or sign makes the parse fail (`ValueError`) |
| `Tokens.CharRange` | main.py:42 | the range has the given length and consecutive code points |
| `Tokens.AlphabetIsAsciiAlnum` | main.py:42 | `ascii_letters + digits` has 62 distinct characters and holds exactly the ASCII letters and digits |
| `Tokens.IndexInAlphabet` | main.py:42 | every ASCII letter or digit sits at some index of the alphabet |
| `Tokens.GenerateToken` | main.py:41-42 | the token has the requested length and only ASCII letters and digits |
| `Tokens.GeneratedIsToken` | main.py:41-42 | with the default length the result is an 8-character alphanumeric token |
| `Tokens.EveryTokenIsDrawable` | main.py:42 | every 8-character alphanumeric string is the outcome of some draw |
| `Paging.TotalPages` | admin.py:305 | the page count is the ceiling of total / 10, and zero exactly when there are no users |
| `Paging.PageRows` | admin.py:294-303 | the page holds at most 10 rows: those from offset `(page-1)*10` on, in order, and none past the end |
| `Paging.NextIffMoreUsers` | admin.py:318-319 | "next" is offered exactly when users remain after the current page |
| `Paging.PageNonEmptyIff` | admin.py:308-312 | a page lists users exactly when its number is at most the page count |
| `Paging.ButtonsStayInRange` | admin.py:316-319 | from an existing page, both buttons lead to existing pages |
| `Paging.PagesCoverAllUsers` | admin.py:300-305 | pages 1 to the page count, laid end to end, list every user once, in order |
| `Paging.FirstPagesArePrefix` | admin.py:300-303 | the first n pages are the first 10n users |
| `MuteTable.AfterCheck` | main.py:89-99 | the user's record survives the check exactly when it is still active; no other record changes |
| `MuteTable.Upsert` | admin.py:219-224 | afterwards the user has exactly one record, holding the new values; every other record is unchanged |
| `MuteTable.Remove` | admin.py:245 | the user's record is gone and every other record is unchanged |
| `MuteTable.CheckIsIdempotent` | main.py:92-99 | a second mute check changes nothing and gives the same verdict |
| `MuteTable.ExpiresAtUntil` | main.py:95 | a record whose expiry equals now no longer mutes, and the check deletes it |
| `MuteTable.UpsertLastWins` | admin.py:222-223 | a second upsert for a user replaces the first |
| `MuteTable.RemoveAfterUpsert` | admin.py:245 | deleting after an upsert leaves the table without that user's record |
| `Store.Owner` | main.py:85 | the owner of a taken token is a user whose row carries it |
| `Store.WithIdentity` | main.py:139-149 | an existing user's table is unchanged; otherwise exactly one new row with the fresh token and `is_admin` false is added, unless the token is taken; other rows are unchanged and tokens stay unique |
| `Store.IdentityIsIdempotent` | main.py:139-149 | a second ensure-identity, whatever it draws, changes nothing and returns the same token |
| `Store.IdentityKeepsAdmins` | main.py:146-149 | ensure-identity never grants or revokes admin rights |
| `Store.Database.IsUserAdmin` | admin.py:30-33 | true iff the user has a row and its `is_admin` is set |
| `Store.Database.GetUserByToken` | main.py:83-85 | finds a user exactly when some row carries the token, and then it is that row's user |
| `Store.Database.IsUserMuted` | main.py:89-99 | `(true, until)` iff a record with `until > now` exists; otherwise `(false, None)` and the expired record is deleted |
| `Store.Database.LogMessage` | main.py:103-109 | exactly one entry `(sender, receiver, text, now)` is appended to the log |
| `Store.Database.EnsureIdentity` | main.py:139-149 | returns the stored token or the fresh one and leaves `users` as `WithIdentity` says; `None` when the fresh token is taken |
| `Store.Database.UpsertMute` | admin.py:218-224 | succeeds iff the id is within the `BIGINT` range and has a `users` row (the foreign key), and then upserts the record |
| `Store.Database.DeleteMute` | admin.py:244-247 | for an id within the `BIGINT` range, deletes the record and reports 1 iff a record existed beforehand; outside it, raises and changes nothing |
| `Conversation.Sessions.Get` | admin.py:210 | a user without FSM entries has no state and no data |
| `Conversation.Sessions.SetState` | admin.py:118 | the state changes and the user's data is kept |
| `Conversation.Sessions.UpdateData` | admin.py:191 | one data key changes; the state and the other keys are kept |
| `Conversation.Sessions.Clear` | admin.py:128 | the user's state and data are dropped |
| `Broadcast.RunBroadcast` | admin.py:132-172 | `success` and `fail` count the deliveries that returned and that raised, and sum to the user count; the batches cover the users in order, each user once, in full batches of 30 except the last; pauses are one fewer than batches (none for no users); the notices are `Progress(0, total)` |
| `Broadcast.CountResults` | admin.py:156-161 | one batch's results are added to the counters: returned as success, raised as failure |
| `Broadcast.ProgressBounded` | admin.py:164-166 | every notice reports a count above its batch's start and never more than the total |
| `Broadcast.ProgressIncreasing` | admin.py:164-166 | the notices report strictly increasing counts |
| `Broadcast.ProgressEndsWithTotal` | admin.py:164-166 | when there are users, the last batch always produces a notice, and it reports the total |
| `Broadcast.ProgressValues` | admin.py:163-164 | the reported counts are exactly the total and the multiples of 300 below it |
| `MainHandlers.StartHandler` | main.py:113-163 | with a token, the mute gate runs first: a muted sender gets the expiry and nothing else changes; otherwise a known token sets `waiting_for_question` with `target_id` set to the owner (overwriting any earlier target), and an unknown one changes no state; without a token, ensure-identity runs and the personal link carries the resulting token |
| `MainHandlers.HandleQuestion` | main.py:166-245 | ensure-identity runs for the sender first; an unsupported message is refused and leaves the sender waiting; otherwise the message goes to `target_id` with the sender's own token and the reply follows the delivery outcome; the state is cleared unless the error is one the handler does not catch; exactly one log entry is appended iff a text was delivered |
| `MainHandlers.ReplyFor` | main.py:238-243 | a delivered, forbidden or bad-request outcome gets its answer; any other Telegram error gets none |
| `AdminHandlers.MuteEnd` | admin.py:201 | the expiry lies after now exactly for a positive number of minutes |
| `AdminHandlers.StartBroadcast` | admin.py:116-118 | the admin waits for the broadcast message; the data is kept |
| `AdminHandlers.ProcessBroadcast` | admin.py:125-179 | the state is cleared before any delivery; then every user is sent to once, in order, in batches of 30 with only the last possibly shorter; the counts, pauses and notices are those of `RunBroadcast` |
| `AdminHandlers.StartMute` | admin.py:181-183 | the admin waits for the id of the user to mute |
| `AdminHandlers.GetUserId` | admin.py:187-195 | an integer id is stored and the flow moves to the duration; anything else leaves state and data unchanged, for a retry |
| `AdminHandlers.GetDuration` | admin.py:197-206 | an integer number of minutes stores `muted_until = now + minutes` and moves to the reason; anything else changes nothing |
| `AdminHandlers.FinishMute` | admin.py:208-230 | the state is cleared, then the collected id gets exactly one record with the collected expiry and the stripped reason; nothing is written and no confirmation is sent when the id is outside the `BIGINT` range or not a known user |
| `AdminHandlers.AskUnmuteId` | admin.py:232-234 | the admin waits for the id of the user to unmute |
| `AdminHandlers.UnmuteUser` | admin.py:238-251 | the state is cleared whatever the text; an integer id within the `BIGINT` range has its record deleted, and success is reported iff a record existed; a non-integer or out-of-range id gets no reply |
| `AdminHandlers.AskSearchId` | admin.py:253-256 | the admin waits for the id of the user to look up |
| `AdminHandlers.ShowUserInfo` | admin.py:258-289 | the state is cleared even for an invalid id; an id outside the `BIGINT` range gets no reply; an unknown id is reported as not found; otherwise the user's name, admin flag and creation time are shown, and "muted" iff a record exists, with its expiry, whether or not it has passed |
| `AdminHandlers.ShowRecentUsers` | admin.py:291-319 | the page shows `PageRows` of the newest-first listing; "previous" iff `page > 1`; "next" iff `page < total_pages`, which holds iff users remain; the page is non-empty iff it exists |

## Left out

- `asyncio.gather` and `asyncio.sleep` (admin.py:154, 172): a batch is counted one
  recipient at a time, and a pause is a counter. Concurrency itself is not modelled.
- Time zones and `datetime`: every timestamp is an integer number of seconds supplied as
  `now`. `timedelta` overflowing for a huge number of minutes is not modelled.
- Randomness: `random.choices` is replaced by the supplied draws (indices into the
  alphabet).
- SQL and the connection pool: `init_db`, the schema and the `/admin` statistics counts
  (admin.py:54-84) are not part of this model. The row order of
  `SELECT user_id FROM users` and of `ORDER BY created_at DESC` is a parameter. The
  parameter is constrained to list every user once, and for the second listing, newest
  first.
- The keyboards, the HTML texts, `bot.me()`, the admin panel menus (admin.py:35-52,
  86-114), `/help` and the environment variables are left out. They are user-interface text
  and foreign calls.
- `select_user` (admin.py:336-368) is left out. It shows the same user details as
  `show_user_info`, with no state change.
- The copy of a media message to the log channel (main.py:220-236) is left out. A single
  delivery outcome stands for both sends.
- `Text.ParseInt`: Python's `int()` also accepts `_` between digits and non-ASCII decimal
  digits. The model accepts only an optional sign followed by ASCII digits.
- `message.text` being `None` (a non-text message in an admin flow) is not modelled. The
  handlers raise there, and the model takes every admin message as text.
- The `created_at` column of `muted_users` is left out. Nothing reads it.
- A `page` below 1 in `show_recent_users` is left out. No button produces one, and
  PostgreSQL rejects the negative offset.
- Exceptions are not modelled as exceptions. They become an empty reply (`None`) together
  with the effects that happened before them, and the handler's later effects are not
  performed. The modelled ones are:
  - a taken token on insert;
  - the foreign key on the mute upsert;
  - `int()` failing in `unmute_user` after the state was cleared;
  - an id outside the `BIGINT` range (main.py:51) passed to the store by `finish_mute`,
    `unmute_user` or `show_user_info`;
  - a Telegram error other than `TelegramForbiddenError` and `TelegramBadRequest` in the
    question relay.
- Timestamps outside PostgreSQL's `TIMESTAMP` range are not modelled.
