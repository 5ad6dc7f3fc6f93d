# Epoch status bot, modelled in Dafny

This is a Dafny model of the decision logic of a Discord bot that watches the
Project Epoch game servers. The bot:

- probes three TCP endpoints (Auth, Kezan, Gurubashi) and keeps a table of
  their reachability with the time of the last change;
- announces, guild by guild, when the auth server comes up and when the Kezan
  realm comes up, pinging the users who opted in with a 🔔 reaction;
- answers `!status` with an ONLINE / AUTH ONLY / OFFLINE verdict;
- runs a betting game on the launch time (stakes, a jackpot, closest-guess
  winners with ties, an admin-confirmed payout and 💰 donations);
- summarises the latest commits and side branches of a few GitHub
  repositories (`!gitcheck`).

The model keeps one module per source file. Each network, Discord, clock or
database answer the code depends on is a parameter. Where the source updates
state in place, the model does so too:

- `StatusTracker` owns the server table;
- `RealmNotifier` owns the per-guild last-seen records and the log of
  messages that reached a channel;
- `Database` owns the settings and opt-in tables;
- `GamblingStore` owns balances, jackpots and bet rows.

Each method that changes state is proved against a specification function on
values, and the properties the bot relies on are lemmas about those
functions.

| file | module | source |
|---|---|---|
| wrappers.dfy | `Wrappers` | `Option` |
| text.dfy | `Text` | decimal text, Python `int()` on ASCII-digit text (signs, `_` grouping, the white space `int()` strips), split/join, ASCII upper case |
| server_status.dfy | `ServerStatus` | `server_status.py` |
| epoch_status.dfy | `EpochStatus` | `epoch_status.py` (the socket bot) |
| epoch_status_api.dfy | `EpochStatusApi` | `epoch-status.py` (the older API bot) |
| status_cog.dfy | `StatusCog` | `cogs/status.py` |
| db.dfy | `Db` | `db.py` |
| notifications.dfy | `Notifications` | `cogs/notifications.py` and the identical handlers in `epoch-status.py` |
| gambling.dfy | `Gambling` | the pure rules of `cogs/gambling.py` |
| gambling_cog.dfy | `GamblingCog` | the tables and commands of `cogs/gambling.py` |
| gitcheck.dfy | `GitCheck` | `cogs/gitcheck.py` |

A few behaviours of the source that the proofs make explicit:

- The socket bot skips a tick on an empty poll table, but
  `EpochStatus.SocketPollNeverEmpty` shows the socket poller never returns
  one. The API bot skips only a failed fetch; an empty document is evaluated
  with everything offline.
- A guild's record is overwritten even when the send fails. So Kezan coming
  up while auth is down is never announced (`EpochStatus.KezanMaskedWhileAuthDown`).
- The status cog builds its own document. That document has no top-level
  `lastOnline` entries and no `source`, so "Last seen" is never shown and the
  footer is always the default one (`StatusCog.FetchedReport`).
- When a bet fails to save, the balance is refunded but the jackpot keeps
  the stake (`GamblingCog.GamblingCog.BetCommand`).
- The payout query matches on display name, predicted time and day, not on
  the active flag, and takes the first row. A user is credited once for
  every winner entry that resolves to them (`GamblingCog.PayWinnersSpec`).

## Model

| member | source | states |
|---|---|---|
| ServerStatus.ServerNamesDistinct | server_status.py:7-11 | the three monitored servers have distinct names |
| ServerStatus.ProbeAll | server_status.py:33-34 | one probe result per endpoint, paired with the endpoints by position |
| ServerStatus.Merged | server_status.py:36-47 | `online` is this poll's result; first sight has no `lastOnline` and changes at `now`; a flip records the previous value and `now`; an unchanged result keeps the old entry |
| ServerStatus.MergeAll | server_status.py:33-47 | every old name stays in the table and every polled name gets an entry |
| ServerStatus.MergeAllElsewhere | server_status.py:36-47 | a name the poll does not mention keeps its entry, or its absence |
| ServerStatus.MergeAllKeys | server_status.py:36-47 | after a poll the table's names are the old names plus the polled ones |
| ServerStatus.PollEntry | server_status.py:36-47 | first sight gives `{current, None, now}`; a flip records the previous value and the time; an unchanged result leaves the entry, timestamp included, as it was; either way `online` is this poll's result |
| ServerStatus.RepollIdempotent | server_status.py:44-47 | polling again with the same results changes nothing, whatever the time |
| ServerStatus.PollRunIsFirstPoll | server_status.py:44-47 | across any run of polls with unchanged results the table is what the first poll made it |
| ServerStatus.StatusTracker.constructor | server_status.py:13 | the table starts empty |
| ServerStatus.StatusTracker.PollServersSocket | server_status.py:30-48 | the loop leaves the table equal to the fold of the results over `SERVERS` in order, and returns the tracker itself rather than a copy |
| ServerStatus.PollCoversServers | server_status.py:33-47 | after a poll each monitored server has an entry whose `online` is its probe result, and no other name is added |
| Text.IntSettingOfText | epoch_status.py:26-29 | an interval setting holding an integer's text reads back as that integer |
| Text.ParseInt | epoch_status.py:27 | a parse succeeds only on text that is not blank once stripped |
| Text.ParseIntRoundTrip | epoch_status.py:27 | the decimal text of any integer parses back to it |
| Text.ParseNumeral | epoch_status.py:27 | a run of digits with single `_` between digits parses to its value |
| Text.ParseNegative | epoch_status.py:27 | a `-` before such a run parses to the negated value |
| Text.GroupedDigits | epoch_status.py:27 | a `_` between two digit runs is accepted and does not change the value |
| Text.SeparatorNotStripped | epoch_status.py:26-29 | a number preceded by the ASCII separator U+001C does not parse, so the setting falls back to its default |
| EpochStatus.CheckIntervalSeconds | epoch_status.py:26-29 | the environment value when it parses as an integer (surrounding white space, a sign and `_` grouping allowed), 15 when it is unset or does not parse |
| EpochStatus.MentionsRoundTrip | epoch_status.py:146 | the mention text splits at single spaces into one `<@id>` token per opt-in, in order, each reading back as that user id |
| EpochStatus.KezanTextSpec | epoch_status.py:144-155 | without opt-ins the fixed no-mention text; with opt-ins the mentions (reading back as the user ids) followed by the announcement |
| EpochStatus.SkippedGuildUntouched | epoch_status.py:104-111 | a guild without a channel, or whose channel is not found, gets no message and its record is neither created nor changed |
| EpochStatus.EvaluatedGuildRecord | epoch_status.py:161-163 | an evaluated guild's record becomes the tick's values whether or not the sends succeeded; no other record changes |
| EpochStatus.GuildMessagesSpec | epoch_status.py:122-159 | the auth message is sent iff auth is up, was not up before, and the send succeeds; the Kezan message iff auth and Kezan are up, Kezan was not, and the send succeeds; nothing else is sent |
| EpochStatus.GuildMessages | epoch_status.py:122-159 | at most two messages, none with auth down, each addressed to the guild's configured channel |
| EpochStatus.NewGuildGetsAuthMessage | epoch_status.py:114-123 | a guild seen for the first time with auth up gets the auth message on that tick |
| EpochStatus.AuthDownSendsNothing | epoch_status.py:123 | with auth down nothing is sent |
| EpochStatus.SteadyStateSilent | epoch_status.py:119-163 | evaluating a guild twice with the same values sends nothing the second time |
| EpochStatus.KezanMaskedWhileAuthDown | epoch_status.py:142 | Kezan coming up while auth is down is recorded, so when auth comes up only the auth message is sent |
| EpochStatus.TickRecordsElsewhere | epoch_status.py:102-163 | evaluating other guilds never touches a guild's record |
| EpochStatus.TickIsPerGuild | epoch_status.py:102-163 | with distinct guild ids, a tick sends each guild's own messages, computed from its own record and view alone |
| EpochStatus.TickRecordsSpec | epoch_status.py:102-163 | after a tick every evaluated guild holds the tick's values and every skipped guild's record is as it was |
| EpochStatus.RealmNotifier.constructor | epoch_status.py:99-100 | no guild has a record yet and nothing has been sent |
| EpochStatus.RealmNotifier.EvaluateGuild | epoch_status.py:103-163 | one iteration of the guild loop: records and sent log become the one-guild step |
| EpochStatus.RealmNotifier.CheckGuilds | epoch_status.py:102-163 | the guild loop leaves the records and sent log equal to the in-order fold over the guilds |
| EpochStatus.RealmNotifier.CheckRealmStatus | epoch_status.py:84-96 | a failed or empty poll changes no record and sends nothing; otherwise the guilds are evaluated with Auth and Kezan read from the table, a missing entry as offline |
| EpochStatus.SocketPollNeverEmpty | epoch_status.py:90-92 | the socket poller never returns an empty table, so this guard never fires |
| EpochStatusApi.CheckIntervalSeconds | epoch-status.py:29-32 | the environment value when it parses as an integer, 10 otherwise |
| EpochStatusApi.FetchRealmStatusData | epoch-status.py:135-152 | a document exactly when the request succeeded, the status is not an HTTP error and the body is a JSON object; every failure is `None` |
| EpochStatusApi.FirstNamed | epoch-status.py:170 | the index of the first realm with that name, or none when no realm has it |
| EpochStatusApi.RealmOnlineSpec | epoch-status.py:169-171 | Kezan reads as online iff the first realm named Kezan carries `worldServerOnline: true` |
| EpochStatusApi.CheckRealmStatus | epoch-status.py:157-238 | a failed fetch changes nothing; otherwise the same per-guild fold runs with the auth flag (default false) and the Kezan flag |
| EpochStatusApi.StatusCommandReply | epoch-status.py:270-288 | a report iff there is a document with a non-empty `status`; the status is upper-cased character by character, each lower-case ASCII letter becoming its capital and every other character kept, and the two flags are read as the notifier reads them |
| EpochStatusApi.ReplyText | epoch-status.py:279-287 | the fixed failure text when unavailable; otherwise the status between the bold markers, then the auth line's and the Kezan line's ONLINE or OFFLINE, each piece at its offset |
| StatusCog.FetchRealmStatusData | cogs/status.py:13-36 | `None` iff the poll failed or is empty; otherwise the auth flag and the realms Kezan then Gurubashi, a missing entry reading offline |
| StatusCog.OverallStatus | cogs/status.py:63-74 | ONLINE iff auth and at least one world server; AUTH ONLY iff auth and neither; OFFLINE iff no auth |
| StatusCog.FooterOf | cogs/status.py:141-147 | "Socket" and "API" each have their own footer, any other source the default one |
| StatusCog.LastSeenSpec | cogs/status.py:89-111 | "Last seen" only for a server that is down with a non-empty `lastOnline`, the top-level entry winning over the realm's |
| StatusCog.StatusCommandSpec | cogs/status.py:55-74 | the verdict is the classification of the line flags, and each realm flag follows the first realm of that name |
| StatusCog.StatusCommand | cogs/status.py:52-147 | a connection failure iff there is no document or it is empty; otherwise the verdict classifies the line flags and the footer follows the source |
| StatusCog.FetchedReport | cogs/status.py:13-147 | on the cog's own document the lines are the poll flags, "Last seen" never appears and the footer is the default |
| StatusCog.SocketStatusVerdict | cogs/status.py:13-74 | behind the socket poller the command never fails to connect and its verdict classifies this poll's three probes |
| Db.ChannelOf | db.py:43-51 | the stored channel, or `None` for a guild never set |
| Db.AddOptinSpec | db.py:53-61 | adding sets the user's name, adds the user to the guild, adds a row only when the pair was absent, and changes no other row |
| Db.RemoveOptinSpec | db.py:63-71 | removing deletes only the matching pair, and removing an absent pair changes nothing |
| Db.AddThenRemove | db.py:53-71 | adding then removing a pair equals removing it |
| Db.OtherGuildsUntouched | db.py:53-71 | adding or removing in one guild leaves every other guild's users and listings as they were |
| Db.ListingSize | db.py:73-82 | a listing has exactly one row per opted-in user |
| Db.Database.constructor | db.py:12-25 | the store starts with the rows the file already holds |
| Db.Database.SetNotificationChannel | db.py:33-41 | upsert: the guild then reads back the new channel and every other guild reads as before |
| Db.Database.GetNotificationChannel | db.py:43-51 | the stored channel, or `None` for a guild never set |
| Db.Database.AddOptinUser | db.py:53-61 | insert-or-replace of the pair's row |
| Db.Database.RemoveOptinUser | db.py:63-71 | delete of the pair's row |
| Db.Database.GetOptinUsers | db.py:73-82 | exactly the guild's rows with their names, each user once, in any order |
| Notifications.ResolveName | cogs/notifications.py:17-31 | the cached member's name, else the fetched member's, and `None` when the guild or the member cannot be found |
| Notifications.OnAdd | cogs/notifications.py:51-62 | a 🔔 without a member raises; a 🔔 from a person subscribes them under the resolved name; nothing else changes, and adding never unsubscribes |
| Notifications.OnRemove | cogs/notifications.py:65-78 | unsubscribe iff the emoji is 🔔, else no change |
| Notifications.BellFromPersonOptsIn | cogs/notifications.py:51-62 | a 🔔 from a person opts them in with the resolved name and touches no other row |
| Notifications.AddIgnored | cogs/notifications.py:51-62 | another emoji or a bot leaves the table unchanged; a 🔔 without a member raises |
| Notifications.RemoveSpec | cogs/notifications.py:65-78 | removing a 🔔 opts the user out, bot or not; any other emoji changes nothing |
| Notifications.ReactThenUnreact | cogs/notifications.py:51-78 | react then unreact equals removing the pair, and restores the table when the user had no row |
| Notifications.NotificationsCog.constructor | cogs/notifications.py:9 | the cog shares the bot's store |
| Notifications.NotificationsCog.AddOptinUser | cogs/notifications.py:17-31 | stores the pair with the resolved name |
| Notifications.NotificationsCog.OnRawReactionAdd | cogs/notifications.py:51-62 | the table becomes the effect of the reaction; the handler raises exactly on a 🔔 without a member |
| Notifications.NotificationsCog.OnRawReactionRemove | cogs/notifications.py:65-78 | the table becomes the effect of the removal |
| Gambling.IsGamblingChannel | cogs/gambling.py:29-34 | every channel with none configured, otherwise only the configured one |
| Gambling.ValidateBet | cogs/gambling.py:280-316 | accepted iff in the channel, both arguments given, 0 < amount <= balance, the time parses and is in the future; each error (wrong channel, usage, non-positive amount, insufficient balance, unparsable time, past time) holds iff the checks before it pass and its own fails |
| Gambling.AcceptedBetKeepsBalanceNonNegative | cogs/gambling.py:299-322 | an accepted stake leaves a balance between 0 and the old one |
| Gambling.MinDiffSpec | cogs/gambling.py:667-676 | the running minimum is attained by some bet and no bet is nearer |
| Gambling.MinDiff | cogs/gambling.py:667-676 | no bet is nearer than the result |
| Gambling.Closest | cogs/gambling.py:667-676 | at most one winner entry per bet |
| Gambling.ClosestNoneNearer | cogs/gambling.py:667-676 | when every bet is farther than a distance, no bet is a winner at that distance |
| Gambling.ClosestSound | cogs/gambling.py:667-676 | every winner entry comes from a bet at that distance |
| Gambling.ClosestComplete | cogs/gambling.py:667-676 | every bet at that distance is a winner entry |
| Gambling.ClosestAppend | cogs/gambling.py:670-676 | the winners of a concatenation are those of the first part followed by those of the second, so input order and multiplicity are kept |
| Gambling.ClosestOne | cogs/gambling.py:670-676 | a single bet is a winner entry exactly when it lies at the distance |
| Gambling.WinnersSpec | cogs/gambling.py:663-676 | the winners of a non-empty list are exactly the bets at the minimal distance, at least one |
| Gambling.PayoutSplit | cogs/gambling.py:682 | floor division: the shares add up to at most the jackpot and the rest is less than the number of winners |
| Gambling.TimeDiff | cogs/gambling.py:787-794 | seconds under a minute; minutes and seconds under an hour; hours and minutes beyond, each part in range and recomposing the difference |
| Gambling.DurationText | cogs/gambling.py:787-794 | seconds, minutes and seconds, or hours and minutes, each count in decimal followed by its unit and the separator `, ` |
| Gambling.DurationTextReadsBack | cogs/gambling.py:787-794 | every count in the accuracy text parses back to the number it shows |
| Gambling.FooterUser | cogs/gambling.py:885-886 | a user id only when the footer has "UserID:" and the piece after "UserID: " is an integer |
| Gambling.BrokeFooterRoundTrip | cogs/gambling.py:561 | the footer `!broke` writes reads back as its author |
| Gambling.BrokeRequest | cogs/gambling.py:532-561 | a request iff the balance is not positive, and it names its author |
| GamblingCog.BalanceOf | cogs/gambling.py:15 | an unknown balance reads as the starting balance 100 |
| GamblingCog.JackpotOf | cogs/gambling.py:679 | an unknown jackpot reads as an empty pot |
| GamblingCog.ActiveBetsEmpty | cogs/gambling.py:661-664 | the day's list is empty iff the guild has no active bet that day |
| GamblingCog.ActiveBets | cogs/gambling.py:661 | the day's list has at most one bet per row |
| GamblingCog.PlacedBetListed | cogs/gambling.py:330-340 | an appended active bet joins the end of its own day's list and leaves every other list as it was |
| GamblingCog.Deactivate | cogs/gambling.py:727-731 | every bet of the guild and day is made inactive and no other row changes |
| GamblingCog.DeactivateSpec | cogs/gambling.py:727-731 | afterwards that day has no active bets and every other day keeps its list |
| GamblingCog.FirstPaid | cogs/gambling.py:704-712 | the first row matching guild, name, predicted time and day, active or not |
| GamblingCog.PayWinnersSpec | cogs/gambling.py:700-715 | each user of the guild gains the share once per winner resolving to them; other guilds are untouched |
| GamblingCog.PayWinners | cogs/gambling.py:700-715 | no balance is dropped, and every balance created belongs to the guild |
| GamblingCog.PayWinnersSolvent | cogs/gambling.py:700-715 | a non-negative share keeps every balance non-negative |
| GamblingCog.WinnerReport | cogs/gambling.py:663-664 | no report exactly when there are no bets |
| GamblingCog.WinnerReportSpec | cogs/gambling.py:658-691 | the report's winners are exactly the nearest bets, and a non-negative jackpot is split into shares that do not exceed it |
| GamblingCog.Donation | cogs/gambling.py:870-897 | a transfer iff a person's 💰 on the bot's request names another user and the donor has at least 5; raises iff a 💰 arrives without a member |
| GamblingCog.TransferSpec | cogs/gambling.py:900-903 | the donor loses 5, the recipient gains 5, their sum is kept and no other balance moves |
| GamblingCog.Transfer | cogs/gambling.py:900-903 | the balance table's keys become the old keys plus the donor's and the recipient's |
| GamblingCog.TransferSolvent | cogs/gambling.py:894-903 | a donation cannot overdraw the donor |
| GamblingCog.GamblingStore.constructor | cogs/gambling.py:13-16 | the store starts with the given tables |
| GamblingCog.GamblingCog.constructor | cogs/gambling.py:13-16 | the cog shares the bot's store |
| GamblingCog.GamblingCog.BetCommand | cogs/gambling.py:278-363 | the refusal is the first failing check and changes nothing; an accepted bet adds the stake to the jackpot and, when saved, takes it from the balance and appends the row; a failed save refunds the balance but not the jackpot |
| GamblingCog.GamblingCog.CalculateAndAnnounceWinners | cogs/gambling.py:658-691 | the loop returns the winner report of the day's active bets and the current pot |
| GamblingCog.GamblingCog.ProcessConfirmedWinners | cogs/gambling.py:693-734 | winners are credited, the jackpot reset to 0 with multiplier 1 and the day, and the day's bets deactivated |
| GamblingCog.GamblingCog.ConfirmWinnerCommand | cogs/gambling.py:738-794 | each guard in order leaves the store unchanged; a confirmation pays out, deactivates exactly the guild's bets of that day (no other row changes), leaves the channel settings as they were and keeps balances non-negative |
| GamblingCog.GamblingCog.OnRawReactionAdd | cogs/gambling.py:870-925 | the outcome is the donation decision, and balances move exactly by the transfer when it is made |
| GamblingCog.GamblingCog.Donate | cogs/gambling.py:900-903 | the donor pays the donation, then the recipient's balance is read and credited with it; the other tables are unchanged and solvency is kept |
| GamblingCog.GamblingCog.BrokeCommand | cogs/gambling.py:526-564 | wrong channel, a positive balance, or a request whose footer names the author |
| GitCheck.ParseRepoSpec | cogs/gitcheck.py:61-64 | split at the first ':' into path and branch; without ':' the branch is `main` |
| GitCheck.RepoSpecRoundTrip | cogs/gitcheck.py:61-64 | a path without ':' joined to a branch parses back into the two |
| GitCheck.DefaultReposSpecs | cogs/gitcheck.py:15-18 | the two configured repositories parse into `Project-Epoch/TrinityCore` on `epoch-core` and `Project-Epoch/tswow` on `epoch` |
| GitCheck.ShortSha | cogs/gitcheck.py:85 | the first 7 characters of the SHA, or all of a shorter one |
| GitCheck.FirstLine | cogs/gitcheck.py:86 | the message up to its first newline |
| GitCheck.LatestCommit | cogs/gitcheck.py:57-104 | no summary iff the request failed or listed no commit; otherwise the short SHA, the first line and the path and branch of the spec |
| GitCheck.Truncate | cogs/gitcheck.py:235-237 | messages over 60 characters become their first 57 plus "...", others are unchanged |
| GitCheck.TruncateIdempotent | cogs/gitcheck.py:235-237 | truncating twice is truncating once, and the result is at most 60 long |
| GitCheck.RepoDisplay | cogs/gitcheck.py:240-242 | the path alone iff the branch is `main`, else the path with a suffix |
| GitCheck.FutureCommitReadsAsHoursAgo | cogs/gitcheck.py:27-32 | as written, a commit 30 seconds in the future reads as 23 hours ago |
| GitCheck.TimeAgo | cogs/gitcheck.py:20-55 | days, hours, minutes or "Just now" by the bucket the age falls in, each count at least 1; unknown only without a date |
| GitCheck.TimeAgoAgreesOnPast | cogs/gitcheck.py:27-51 | for commits in the past the corrected reading equals the code's |
| GitCheck.TimeAgoAsWritten | cogs/gitcheck.py:20-55 | "Unknown time" iff there is no date, and a commit dated in the future never reads as days ago |
| GitCheck.AgoText | cogs/gitcheck.py:35-55 | "1 day ago", "1 hour ago" and "1 minute ago" exactly for a count of one; any other count is written in decimal before the plural " days ago", " hours ago" or " minutes ago" |
| GitCheck.AgoTextReadsBack | cogs/gitcheck.py:35-49 | the number in a plural age parses back to the count |
| GitCheck.Select | cogs/gitcheck.py:129-142 | a chosen branch is a side branch whose commit was read |
| GitCheck.SelectSpec | cogs/gitcheck.py:129-145 | abort iff some side branch raises; none iff none was read; otherwise a branch with the latest date, earlier ones strictly older |
| GitCheck.AbortSticks | cogs/gitcheck.py:129-142 | once the loop raises, the whole lookup fails |
| GitCheck.MostRecentBranch | cogs/gitcheck.py:125-145 | the loop's answer is the selection |
| GitCheck.PrHeadSpec | cogs/gitcheck.py:149 | the head filter of `owner/repo` is `owner:branch` |
| GitCheck.PrHead | cogs/gitcheck.py:149 | the head filter ends in `:` followed by the branch |
| GitCheck.LatestBranchAndPr | cogs/gitcheck.py:106-178 | a result iff a side branch was chosen and the pull-request request did not raise; it carries that branch's data and the first open pull request when the query answered 200 |
| GitCheck.Entry | cogs/gitcheck.py:228-286 | an error field iff no commit; otherwise the display name, SHA, author, truncated message and age of the commit, and a work line iff a branch was found, with that branch's name, pull request and age and the cheer iff its commit is under an hour old |
| GitCheck.EntryAgesAsWritten | cogs/gitcheck.py:232-259 | for commits not dated in the future the ages in a field are what `format_time_ago` as written prints |
| GitCheck.GitcheckCommand | cogs/gitcheck.py:181-300 | one field per configured repository, in order, each showing that repository's fetched commit and the branch and pull-request lookup on its path |

## Left out

- The TCP probe, the HTTP requests, `asyncio.gather` and the Discord API are left out: their answers are parameters (probe results, fetch outcomes, member lookups, send successes, reacted messages).
- The periodic task scheduling and the concurrency of the event loop are left out; one tick is one method call.
- The log lines and the `:bait:` reaction for the "High Tempo" guild are left out, as they change no state the model tracks.
- The commented-out API backup in `server_status.py` is left out because it is dead code.
- `check_server` is left out; it is a boolean oracle.
- `parse_time_input`, `get_current_day` and the current time are inputs in whole seconds, as they depend on time zones and the wall clock. `datetime.fromisoformat` is an integer timestamp or `None`.
- Sub-second parts of `timedelta` are left out: ages are whole seconds.
- The gambling tables are not defined in `db.py`. They are maps and a row sequence with assumed get/set meaning. `update_jackpot` adds to the pot and keeps the multiplier and reset day.
- Embed text and layout are not modelled, nor the reaction count in the donation embed, the first-bet bonus message (`has_placed_any_bet`) or the random appreciation message. The model keeps only whether the cheer is added.
- The `!daily`, `!bets`, `!jackpot`, `!rollover`, `!balance`, `!gambling-rules`, `!false-alarm` and `!set-gamble-channel` commands are not modelled.
- The administrator permission check on `!confirm-winner` is left out, as the decorator runs before the command.
- The `!setchannel` and `!notifyme` commands are left out; they are thin wrappers around the store and message posting.
- `cogs/patch.py`, `cogs/admin.py` and `cogs/clanker.py` are not part of this model.
- Non-object JSON documents and a `realms` value that is not a list are not modelled.
- EpochStatusApi.StatusCommandReply: upper-casing covers ASCII letters only, not Python's full Unicode `str.upper`.
- GamblingCog.GamblingCog.BetCommand: the formatted predicted-time text is stored but never read, so a bet row keeps the predicted and the placement timestamps but not that text.
- GitCheck.Entry / GitCheck.GitcheckCommand: the ages shown are the corrected reading (`GitCheck.TimeAgo`), not `format_time_ago` as written; the two differ only for a commit dated in the future, which the code prints as up to "23 hours ago" and the model as "Just now" (see Findings and `GitCheck.EntryAgesAsWritten`).
- EpochStatus.CheckIntervalSeconds: Python's `int()` also accepts non-ASCII decimal digits (Arabic-Indic, full-width and so on); the model reads ASCII digits only.
- EpochStatusApi.CheckIntervalSeconds: the same restriction to ASCII digits as `EpochStatus.CheckIntervalSeconds`.
- Some inputs the source accepts are not expressible: a reaction payload always has a guild (in a direct message the source's 🔔 removal deletes with `guild_id = NULL` and removes nothing); `StatusCog.IsEmptyDoc` treats a document holding only an empty `lastOnline` map as empty, which Python treats as true; and the API document's flags are booleans, not arbitrary truthy values.
- The number of repositories fetched in the `!gitcheck` description and the per-commit footer time are presentation and are left out.

## Findings

| source | as written | input that shows it | evidently intended | confidence | as-written member | corrected member |
|---|---|---|---|---|---|---|
| cogs/gitcheck.py:27-51 | the age is `now - commit_time` as a `timedelta`, whose `days` floors and whose `seconds` lies in [0, 86400) even for a negative difference | a commit 30 seconds ahead of the bot's clock reads "23 hours ago" | a commit from the future reads "Just now" | not executed | GitCheck.FutureCommitReadsAsHoursAgo | GitCheck.TimeAgo |
