/** The background check of `epoch_status.py`: each tick reads the polled
    server table and, guild by guild, sends an "auth online" message on a
    false-to-true edge of the auth server and a Kezan message (mentioning the
    opted-in users) when auth and Kezan are both up and Kezan was not up at the
    guild's previous evaluation. Each guild keeps its own last-seen
    `{auth, kezan}` record. */
module EpochStatus {
  import opened Wrappers
  import opened Text
  import ServerStatus
  import opened Db

  /** `last_status[guild_id]`: the values seen at the guild's last evaluation. */
  datatype GuildRecord = GuildRecord(auth: bool, kezan: bool)

  type Records = map<GuildId, GuildRecord>

  /** What the outside world answers about one guild during one tick: the
      configured channel (database), whether the bot can resolve it, the
      opt-in rows (database), and whether each `channel.send` succeeds. */
  datatype GuildView = GuildView(
    id: GuildId,
    channel: Option<ChannelId>,
    channelFound: bool,
    optins: seq<OptIn>,
    authSendOk: bool,
    kezanSendOk: bool)

  /** The two announcements a guild can receive; `NoticeText` gives the text. */
  datatype Notice = AuthOnline | KezanOnline(optins: seq<OptIn>)

  /** A message that reached a channel. */
  datatype Sent = Sent(guild: GuildId, channel: ChannelId, notice: Notice)

  const AuthOnlineText := "The Project Epoch auth server is now **ONLINE**! You may be able to log in soon."
  const KezanOnlineSuffix := " The Project Epoch realm **Kezan** is now **ONLINE**! Go Go Go!"
  const KezanNoOptinText := "The Project Epoch realm **Kezan** is now **ONLINE**! (No users have opted in for notifications.)"

  /** The poll of one tick: either it raised, or it returned a table. */
  datatype PollResult = PollFailed | Polled(data: ServerStatus.StateTable)

  // ---------------------------------------------------------------------
  // Configuration
  // ---------------------------------------------------------------------

  /** `CHECK_INTERVAL_SECONDS`: the environment value when it parses as an
      integer, 15 when it is unset or does not parse. */
  function CheckIntervalSeconds(env: Option<string>): (r: int)
    ensures env.None? || ParseInt(env.value).None? ==> r == 15
    ensures env.Some? && ParseInt(env.value).Some? ==> r == ParseInt(env.value).value
  {
    IntSetting(env, 15)
  }

  // ---------------------------------------------------------------------
  // Message texts
  // ---------------------------------------------------------------------

  function MentionToken(u: UserId): string {
    "<@" + NatToDecimal(u) + ">"
  }

  function MentionTokens(optins: seq<OptIn>): (r: seq<string>)
    ensures |r| == |optins| && forall i :: 0 <= i < |optins| ==> r[i] == MentionToken(optins[i].userId)
  {
    seq(|optins|, i requires 0 <= i < |optins| => MentionToken(optins[i].userId))
  }

  /** `' '.join(f'<@{uid}>' for uid, _ in optin_users)`. */
  function Mentions(optins: seq<OptIn>): string {
    Join(MentionTokens(optins), " ")
  }

  /** The Kezan announcement: mentions first when someone opted in, else the
      fixed no-mention text. */
  function KezanText(optins: seq<OptIn>): string {
    if |optins| > 0 then Mentions(optins) + KezanOnlineSuffix else KezanNoOptinText
  }

  function NoticeText(n: Notice): string {
    match n
    case AuthOnline => AuthOnlineText
    case KezanOnline(optins) => KezanText(optins)
  }

  /** Reads a `<@digits>` token back (the inverse of `MentionToken`). */
  function ParseMention(tok: string): Option<UserId> {
    if |tok| >= 4 && tok[..2] == "<@" && tok[|tok| - 1] == '>' && AllDigits(tok[2..|tok| - 1])
    then Some(DecimalValue(tok[2..|tok| - 1]))
    else None
  }

  function UserIds(optins: seq<OptIn>): (r: seq<UserId>)
    ensures |r| == |optins| && forall i :: 0 <= i < |optins| ==> r[i] == optins[i].userId
  {
    seq(|optins|, i requires 0 <= i < |optins| => optins[i].userId)
  }

  /** The mention text names every opted-in user exactly once, in order,
      separated by single spaces: splitting at spaces and reading the tokens
      back gives the user ids. */
  lemma MentionsRoundTrip(optins: seq<OptIn>)
    requires |optins| > 0
    ensures var toks := Split(Mentions(optins), " ");
      |toks| == |optins| && forall i :: 0 <= i < |optins| ==> ParseMention(toks[i]) == Some(optins[i].userId)
  {
    var toks := MentionTokens(optins);
    forall i | 0 <= i < |toks| ensures Lacks(toks[i], ' ') {
      assert toks[i] == "<@" + NatToDecimal(optins[i].userId) + ">";
    }
    assert [' '] == " ";
    SplitJoin(toks, ' ');
    forall i | 0 <= i < |optins| ensures ParseMention(toks[i]) == Some(optins[i].userId) {
      var d := NatToDecimal(optins[i].userId);
      assert toks[i][2..|toks[i]| - 1] == d;
      DecimalRoundTrip(optins[i].userId);
    }
  }

  /** Without opt-ins the Kezan message is the fixed no-mention text; with
      opt-ins it is the mentions, which read back as the opted-in user ids in
      order, followed by the announcement. */
  lemma KezanTextSpec(optins: seq<OptIn>)
    ensures |optins| == 0 ==> KezanText(optins) == KezanNoOptinText
    ensures |optins| > 0 ==>
      var t, m := KezanText(optins), |Mentions(optins)|;
      && m <= |t| && t[m..] == KezanOnlineSuffix
      && var toks := Split(t[..m], " ");
      && |toks| == |optins|
      && forall i :: 0 <= i < |optins| ==> ParseMention(toks[i]) == Some(optins[i].userId)
  {
    if |optins| > 0 {
      var t := KezanText(optins);
      assert t[..|Mentions(optins)|] == Mentions(optins);
      MentionsRoundTrip(optins);
    }
  }

  // ---------------------------------------------------------------------
  // One guild
  // ---------------------------------------------------------------------

  function OnlineOf(data: ServerStatus.StateTable, name: string): bool {
    name in data && data[name].online
  }

  /** A guild without a configured channel, or whose channel the bot cannot
      resolve, is skipped. */
  predicate Skipped(g: GuildView) {
    g.channel.None? || !g.channelFound
  }

  function Prior(records: Records, id: GuildId): GuildRecord {
    if id in records then records[id] else GuildRecord(false, false)
  }

  /** The messages one evaluated guild receives. */
  function GuildMessages(p: GuildRecord, auth: bool, kezan: bool, g: GuildView): (r: seq<Sent>)
    requires !Skipped(g)
    ensures |r| <= 2
    ensures !auth ==> r == []
    ensures forall i :: 0 <= i < |r| ==> r[i].guild == g.id && r[i].channel == g.channel.value
  {
    var c := g.channel.value;
    (if auth && !p.auth && g.authSendOk then [Sent(g.id, c, AuthOnline)] else [])
    + (if auth && kezan && !p.kezan && g.kezanSendOk then [Sent(g.id, c, KezanOnline(g.optins))] else [])
  }

  function StepRecords(records: Records, auth: bool, kezan: bool, g: GuildView): Records {
    if Skipped(g) then records else records[g.id := GuildRecord(auth, kezan)]
  }

  function StepSent(records: Records, auth: bool, kezan: bool, g: GuildView): seq<Sent> {
    if Skipped(g) then [] else GuildMessages(Prior(records, g.id), auth, kezan, g)
  }

  /** A skipped guild gets nothing and its record is neither created nor
      changed. */
  lemma SkippedGuildUntouched(records: Records, auth: bool, kezan: bool, g: GuildView)
    requires Skipped(g)
    ensures StepRecords(records, auth, kezan, g) == records
    ensures StepSent(records, auth, kezan, g) == []
  {
  }

  /** An evaluated guild's record becomes the current values, whether or not
      the sends succeeded; no other guild's record changes. */
  lemma EvaluatedGuildRecord(records: Records, auth: bool, kezan: bool, g: GuildView)
    requires !Skipped(g)
    ensures var r := StepRecords(records, auth, kezan, g);
      g.id in r && r[g.id] == GuildRecord(auth, kezan) &&
      forall k :: k != g.id ==> (k in r <==> k in records) && (k in r ==> r[k] == records[k])
  {
  }

  /** The auth message reaches an evaluated guild exactly when auth is up now,
      was not up at its previous evaluation, and the send succeeds; the Kezan
      message exactly when auth and Kezan are both up, Kezan was not, and the
      send succeeds. Nothing else is ever sent. */
  lemma GuildMessagesSpec(records: Records, auth: bool, kezan: bool, g: GuildView)
    requires !Skipped(g)
    ensures var p, out, c := Prior(records, g.id), StepSent(records, auth, kezan, g), g.channel.value;
      && (Sent(g.id, c, AuthOnline) in out <==> auth && !p.auth && g.authSendOk)
      && (Sent(g.id, c, KezanOnline(g.optins)) in out <==> auth && kezan && !p.kezan && g.kezanSendOk)
      && (forall m :: m in out ==> m == Sent(g.id, c, AuthOnline) || m == Sent(g.id, c, KezanOnline(g.optins)))
  {
  }

  /** A guild first seen with auth up is sent the auth message on that very
      tick: a new guild starts from `{auth: false, kezan: false}`. */
  lemma NewGuildGetsAuthMessage(records: Records, kezan: bool, g: GuildView)
    requires !Skipped(g) && g.id !in records && g.authSendOk
    ensures StepSent(records, true, kezan, g)[0] == Sent(g.id, g.channel.value, AuthOnline)
  {
  }

  /** Going offline, or staying offline, sends nothing. */
  lemma AuthDownSendsNothing(records: Records, kezan: bool, g: GuildView)
    ensures StepSent(records, false, kezan, g) == []
  {
  }

  /** Edge triggering: evaluating a guild twice with the same values sends
      nothing the second time. */
  lemma SteadyStateSilent(records: Records, auth: bool, kezan: bool, g: GuildView, g2: GuildView)
    requires !Skipped(g) && g2.id == g.id
    ensures StepSent(StepRecords(records, auth, kezan, g), auth, kezan, g2) == []
  {
  }

  /** Kezan coming up while auth is down is recorded, so when auth later comes
      up the Kezan message is not sent (only the auth message is). */
  lemma KezanMaskedWhileAuthDown(records: Records, g: GuildView, g2: GuildView)
    requires !Skipped(g) && !Skipped(g2) && g2.id == g.id
    ensures var after := StepRecords(records, false, true, g);
      forall m :: m in StepSent(after, true, true, g2) ==> m.notice == AuthOnline
  {
  }

  // ---------------------------------------------------------------------
  // One tick over all guilds
  // ---------------------------------------------------------------------

  /** The records after evaluating a prefix of the guild list, in order. */
  function TickRecords(records: Records, auth: bool, kezan: bool, gs: seq<GuildView>): Records {
    if gs == [] then records
    else
      var n := |gs| - 1;
      StepRecords(TickRecords(records, auth, kezan, gs[..n]), auth, kezan, gs[n])
  }

  /** The messages sent while evaluating a prefix of the guild list. */
  function TickSent(records: Records, auth: bool, kezan: bool, gs: seq<GuildView>): seq<Sent> {
    if gs == [] then []
    else
      var n := |gs| - 1;
      TickSent(records, auth, kezan, gs[..n]) + StepSent(TickRecords(records, auth, kezan, gs[..n]), auth, kezan, gs[n])
  }

  /** Evaluating one more guild extends the tick by that guild's step. */
  lemma TickStep(records: Records, log: seq<Sent>, auth: bool, kezan: bool, gs: seq<GuildView>, i: nat,
                  r0: Records, s0: seq<Sent>, r1: Records, s1: seq<Sent>)
    requires i < |gs|
    requires r0 == TickRecords(records, auth, kezan, gs[..i]) && s0 == log + TickSent(records, auth, kezan, gs[..i])
    requires r1 == StepRecords(r0, auth, kezan, gs[i]) && s1 == s0 + StepSent(r0, auth, kezan, gs[i])
    ensures r1 == TickRecords(records, auth, kezan, gs[..i + 1])
    ensures s1 == log + TickSent(records, auth, kezan, gs[..i + 1])
  {
    assert gs[..i + 1][..i] == gs[..i];
  }

  predicate DistinctIds(gs: seq<GuildView>) {
    forall i, j :: 0 <= i < j < |gs| ==> gs[i].id != gs[j].id
  }

  /** Evaluating other guilds never touches a guild's record. */
  lemma {:induction false} TickRecordsElsewhere(records: Records, auth: bool, kezan: bool, gs: seq<GuildView>, id: GuildId)
    requires forall i :: 0 <= i < |gs| ==> gs[i].id != id
    ensures Prior(TickRecords(records, auth, kezan, gs), id) == Prior(records, id)
    ensures (id in TickRecords(records, auth, kezan, gs)) == (id in records)
  {
    if gs != [] {
      TickRecordsElsewhere(records, auth, kezan, gs[..|gs| - 1], id);
    }
  }

  /** Each guild's messages as if it were alone, concatenated in guild order. */
  function Isolated(records: Records, auth: bool, kezan: bool, gs: seq<GuildView>): seq<Sent> {
    if gs == [] then []
    else
      var n := |gs| - 1;
      Isolated(records, auth, kezan, gs[..n]) + StepSent(records, auth, kezan, gs[n])
  }

  /** Fan-out isolation: with distinct guild ids, what a tick sends is each
      guild's own messages, computed from that guild's own record and view
      alone; one guild's missing channel or failed send changes nothing for
      another. */
  lemma {:induction false} TickIsPerGuild(records: Records, auth: bool, kezan: bool, gs: seq<GuildView>)
    requires DistinctIds(gs)
    ensures TickSent(records, auth, kezan, gs) == Isolated(records, auth, kezan, gs)
  {
    if gs != [] {
      var n := |gs| - 1;
      TickIsPerGuild(records, auth, kezan, gs[..n]);
      TickRecordsElsewhere(records, auth, kezan, gs[..n], gs[n].id);
    }
  }

  /** After a tick every evaluated guild's record holds the tick's values and
      every other guild's record is as it was. */
  lemma {:induction false} TickRecordsSpec(records: Records, auth: bool, kezan: bool, gs: seq<GuildView>, id: GuildId)
    requires DistinctIds(gs)
    ensures var r := TickRecords(records, auth, kezan, gs);
      (exists i :: 0 <= i < |gs| && gs[i].id == id && !Skipped(gs[i])) ==> id in r && r[id] == GuildRecord(auth, kezan)
    ensures var r := TickRecords(records, auth, kezan, gs);
      (forall i :: 0 <= i < |gs| && gs[i].id == id ==> Skipped(gs[i])) ==> (id in r <==> id in records) && Prior(r, id) == Prior(records, id)
  {
    if gs != [] {
      var n := |gs| - 1;
      TickRecordsSpec(records, auth, kezan, gs[..n], id);
      if gs[n].id == id {
        TickRecordsElsewhere(records, auth, kezan, gs[..n], id);
      }
    }
  }

  /** The owner of `check_realm_status.last_status`, with the log of messages
      that reached a channel. */
  class RealmNotifier {
    var lastStatus: Records
    var sent: seq<Sent>

    constructor ()
      ensures lastStatus == map[] && sent == []
    {
      lastStatus := map[];
      sent := [];
    }

    /** The body of the guild loop for one guild. */
    method EvaluateGuild(auth: bool, kezan: bool, g: GuildView)
      modifies this
      ensures lastStatus == StepRecords(old(lastStatus), auth, kezan, g)
      ensures sent == old(sent) + StepSent(old(lastStatus), auth, kezan, g)
    {
      if g.channel.None? || !g.channelFound {
        return;
      }
      var channel := g.channel.value;
      if g.id !in lastStatus {
        lastStatus := lastStatus[g.id := GuildRecord(false, false)];
      }
      var prevAuth, prevKezan := lastStatus[g.id].auth, lastStatus[g.id].kezan;
      if auth && !prevAuth && g.authSendOk {
        sent := sent + [Sent(g.id, channel, AuthOnline)];
      }
      if auth && kezan && !prevKezan && g.kezanSendOk {
        sent := sent + [Sent(g.id, channel, KezanOnline(g.optins))];
      }
      lastStatus := lastStatus[g.id := GuildRecord(auth, kezan)];
    }

    /** The records and the log are those of a tick that has evaluated
        `done`, starting from `records` and `log`. */
    ghost predicate Ticked(records: Records, log: seq<Sent>, auth: bool, kezan: bool, done: seq<GuildView>)
      reads this
    {
      lastStatus == TickRecords(records, auth, kezan, done) && sent == log + TickSent(records, auth, kezan, done)
    }

    /** The guild loop: evaluate every guild in order with the tick's values. */
    method CheckGuilds(auth: bool, kezan: bool, guilds: seq<GuildView>)
      modifies this
      ensures lastStatus == TickRecords(old(lastStatus), auth, kezan, guilds)
      ensures sent == old(sent) + TickSent(old(lastStatus), auth, kezan, guilds)
    {
      ghost var records, log := lastStatus, sent;
      var i := 0;
      while i < |guilds|
        invariant 0 <= i <= |guilds|
        invariant Ticked(records, log, auth, kezan, guilds[..i])
      {
        ghost var r0, s0 := lastStatus, sent;
        EvaluateGuild(auth, kezan, guilds[i]);
        TickStep(records, log, auth, kezan, guilds, i, r0, s0, lastStatus, sent);
        i := i + 1;
      }
      assert guilds[..i] == guilds;
    }

    /** `check_realm_status` of the socket bot: a poll that raised or returned
        an empty table ends the tick with no message and no record change;
        otherwise a missing Auth or Kezan entry reads as offline. */
    method CheckRealmStatus(poll: PollResult, guilds: seq<GuildView>)
      modifies this
      ensures poll.PollFailed? || |poll.data| == 0 ==> lastStatus == old(lastStatus) && sent == old(sent)
      ensures poll.Polled? && |poll.data| > 0 ==>
        var auth, kezan := OnlineOf(poll.data, "Auth"), OnlineOf(poll.data, "Kezan");
        && lastStatus == TickRecords(old(lastStatus), auth, kezan, guilds)
        && sent == old(sent) + TickSent(old(lastStatus), auth, kezan, guilds)
    {
      if poll.PollFailed? || |poll.data| == 0 {
        return;
      }
      var auth := "Auth" in poll.data && poll.data["Auth"].online;
      var kezan := "Kezan" in poll.data && poll.data["Kezan"].online;
      CheckGuilds(auth, kezan, guilds);
    }
  }

  /** With the socket poller as the source of data, the empty-table guard never
      fires: a poll always leaves the three monitored servers in the table. */
  lemma SocketPollNeverEmpty(table: ServerStatus.StateTable, probe: ServerStatus.Endpoint -> bool, now: ServerStatus.Timestamp)
    ensures |ServerStatus.MergeAll(table, ServerStatus.Names(ServerStatus.Servers), ServerStatus.ProbeAll(probe, ServerStatus.Servers), now)| > 0
  {
    var r := ServerStatus.MergeAll(table, ServerStatus.Names(ServerStatus.Servers), ServerStatus.ProbeAll(probe, ServerStatus.Servers), now);
    ServerStatus.PollCoversServers(table, probe, now);
    assert "Auth" in r;
  }
}
