/** The `!status` command of `cogs/status.py`: the socket poll table is turned
    into a document in the shape of the old status API, and the document into
    an overall ONLINE / AUTH ONLY / OFFLINE verdict with one line per server.
    The embed itself (emoji, colours, layout) is presentation and is reduced
    to the `StatusReport` value it shows. */
module StatusCog {
  import opened Wrappers
  import ServerStatus
  import EpochStatus
  import EpochStatusApi

  /** The document `status_command` reads. Besides the API fields it looks for
      top-level `lastOnline` values under the server names and for a `source`
      key; `topLastOnline` holds the former (an absent key or a `None` value
      is simply not in the map). */
  datatype StatusData = StatusData(
    authServerStatus: Option<bool>,
    realms: Option<seq<EpochStatusApi.Realm>>,
    topLastOnline: map<string, string>,
    source: Option<string>)

  /** An empty dictionary, which Python treats as false. */
  predicate IsEmptyDoc(d: StatusData) {
    d.authServerStatus.None? && d.realms.None? && d.topLastOnline == map[] && d.source.None?
  }

  /** `fetch_realm_status_data` of the cog: a failed or empty poll gives `None`;
      otherwise the auth flag and the realms Kezan and Gurubashi, in that
      order, each read as offline when the table lacks it. */
  function FetchRealmStatusData(poll: EpochStatus.PollResult): (r: Option<StatusData>)
    ensures r.None? <==> poll.PollFailed? || |poll.data| == 0
    ensures r.Some? ==> var d := r.value;
      && d.authServerStatus == Some(EpochStatus.OnlineOf(poll.data, "Auth"))
      && d.realms.Some? && |d.realms.value| == 2
      && d.realms.value[0].name == Some("Kezan")
      && d.realms.value[0].worldServerOnline == Some(EpochStatus.OnlineOf(poll.data, "Kezan"))
      && d.realms.value[1].name == Some("Gurubashi")
      && d.realms.value[1].worldServerOnline == Some(EpochStatus.OnlineOf(poll.data, "Gurubashi"))
      && d.realms.value[0].lastOnline.None? && d.realms.value[1].lastOnline.None?
      && d.topLastOnline == map[] && d.source.None?
  {
    if poll.PollFailed? || |poll.data| == 0 then None
    else
      var t := poll.data;
      Some(StatusData(
        Some(EpochStatus.OnlineOf(t, "Auth")),
        Some([EpochStatusApi.Realm(Some("Kezan"), Some(EpochStatus.OnlineOf(t, "Kezan")), None),
              EpochStatusApi.Realm(Some("Gurubashi"), Some(EpochStatus.OnlineOf(t, "Gurubashi")), None)]),
        map[], None))
  }

  datatype Verdict = Online | AuthOnly | Offline

  /** The overall status: every combination of the three flags gets exactly
      one verdict. */
  function OverallStatus(auth: bool, kezan: bool, gurubashi: bool): (v: Verdict)
    ensures v == Online <==> auth && (kezan || gurubashi)
    ensures v == AuthOnly <==> auth && !kezan && !gurubashi
    ensures v == Offline <==> !auth
  {
    if auth && (kezan || gurubashi) then Online
    else if auth then AuthOnly
    else Offline
  }

  /** One server's field: up or down, and the "Last seen" time it shows. */
  datatype ServerLine = ServerLine(online: bool, lastSeen: Option<string>)

  datatype Footer = ViaSocket | ViaApi | ViaDefault

  datatype StatusReport =
    | ConnectionFailed
    | Report(verdict: Verdict, auth: ServerLine, kezan: ServerLine, gurubashi: ServerLine, footer: Footer)

  /** A `lastOnline` value counts only when it is a non-empty string. */
  function Truthy(s: Option<string>): Option<string> {
    if s.Some? && |s.value| > 0 then s else None
  }

  function TopLastOnline(d: StatusData, name: string): Option<string> {
    Truthy(if name in d.topLastOnline then Some(d.topLastOnline[name]) else None)
  }

  function Realms(d: StatusData): seq<EpochStatusApi.Realm> {
    d.realms.GetOr([])
  }

  function AuthLine(d: StatusData): ServerLine {
    var up := d.authServerStatus.GetOr(false);
    ServerLine(up, if up then None else TopLastOnline(d, "Auth"))
  }

  /** A world server's field: its flag is the first realm of that name; when
      it is down, "Last seen" comes from the top-level entry of that name if it
      has one, else from the realm record. */
  function RealmLine(d: StatusData, name: string): ServerLine {
    var realms := Realms(d);
    var up := EpochStatusApi.RealmOnline(realms, name);
    var fromRealm := match EpochStatusApi.FirstNamed(realms, name)
      case None => None
      case Some(i) => Truthy(realms[i].lastOnline);
    ServerLine(up, if up then None else if TopLastOnline(d, name).Some? then TopLastOnline(d, name) else fromRealm)
  }

  function FooterOf(source: Option<string>): (f: Footer)
    ensures f == ViaSocket <==> source == Some("Socket")
    ensures f == ViaApi <==> source == Some("API")
    ensures f == ViaDefault <==> source != Some("Socket") && source != Some("API")
  {
    if source == Some("Socket") then ViaSocket
    else if source == Some("API") then ViaApi
    else ViaDefault
  }

  const SocketFooterText := "Status checked via direct server connection"
  const ApiFooterText := "Status checked via API backup (last online times in CST)"
  const DefaultFooterText := "Status checked via direct connection (API backup available)"

  function FooterText(f: Footer): string {
    match f
    case ViaSocket => SocketFooterText
    case ViaApi => ApiFooterText
    case ViaDefault => DefaultFooterText
  }

  /** What `status_command` shows for the document it got. */
  function StatusCommand(data: Option<StatusData>): (r: StatusReport)
    ensures r.ConnectionFailed? <==> data.None? || IsEmptyDoc(data.value)
    ensures r.Report? ==> r.verdict == OverallStatus(r.auth.online, r.kezan.online, r.gurubashi.online)
    ensures r.Report? ==> r.footer == FooterOf(data.value.source)
  {
    if data.None? || IsEmptyDoc(data.value) then ConnectionFailed
    else
      var d := data.value;
      var a, k, g := AuthLine(d), RealmLine(d, "Kezan"), RealmLine(d, "Gurubashi");
      Report(OverallStatus(a.online, k.online, g.online), a, k, g, FooterOf(d.source))
  }

  /** "Last seen" appears on a server's line only when that server is down and
      a non-empty `lastOnline` is available for it; the top-level entry wins
      over the realm record. */
  lemma LastSeenSpec(d: StatusData, name: string)
    ensures var l := AuthLine(d);
      l.lastSeen.Some? <==> !l.online && TopLastOnline(d, "Auth").Some?
    ensures var l := RealmLine(d, name);
      && (l.lastSeen.Some? ==> !l.online && |l.lastSeen.value| > 0)
      && (!l.online && TopLastOnline(d, name).Some? ==> l.lastSeen == TopLastOnline(d, name))
      && (!l.online && TopLastOnline(d, name).None? ==>
            (l.lastSeen.Some? <==>
              exists i :: 0 <= i < |Realms(d)| && Realms(d)[i].name == Some(name)
                && (forall j :: 0 <= j < i ==> Realms(d)[j].name != Some(name))
                && Realms(d)[i].lastOnline.Some? && |Realms(d)[i].lastOnline.value| > 0))
  {
    var realms := Realms(d);
    var l := RealmLine(d, name);
    if !l.online && TopLastOnline(d, name).None? && l.lastSeen.Some? {
      var i := EpochStatusApi.FirstNamed(realms, name).value;
      assert realms[i].lastOnline.Some?;
    }
  }

  /** The verdict agrees with the line flags, and the realm flags follow the
      first realm of each name. */
  lemma StatusCommandSpec(d: StatusData)
    requires !IsEmptyDoc(d)
    ensures var r := StatusCommand(Some(d));
      && r.Report?
      && r.verdict == OverallStatus(d.authServerStatus == Some(true), r.kezan.online, r.gurubashi.online)
      && (r.kezan.online <==>
            exists i :: 0 <= i < |Realms(d)| && Realms(d)[i].name == Some("Kezan")
              && Realms(d)[i].worldServerOnline == Some(true)
              && forall j :: 0 <= j < i ==> Realms(d)[j].name != Some("Kezan"))
      && (r.gurubashi.online <==>
            exists i :: 0 <= i < |Realms(d)| && Realms(d)[i].name == Some("Gurubashi")
              && Realms(d)[i].worldServerOnline == Some(true)
              && forall j :: 0 <= j < i ==> Realms(d)[j].name != Some("Gurubashi"))
  {
    EpochStatusApi.RealmOnlineSpec(Realms(d), "Kezan");
    EpochStatusApi.RealmOnlineSpec(Realms(d), "Gurubashi");
  }

  /** On data built by the cog's own fetch, the report reads the poll table
      directly; since that document has no top-level entries, no `lastOnline`
      in its realms and no `source`, "Last seen" is never shown and the
      footer is always the default one. */
  lemma FetchedReport(poll: EpochStatus.PollResult)
    ensures var r := StatusCommand(FetchRealmStatusData(poll));
      && (r.ConnectionFailed? <==> poll.PollFailed? || |poll.data| == 0)
      && (r.Report? ==>
            var auth, kezan, guru := EpochStatus.OnlineOf(poll.data, "Auth"),
              EpochStatus.OnlineOf(poll.data, "Kezan"), EpochStatus.OnlineOf(poll.data, "Gurubashi");
            && r.auth == ServerLine(auth, None)
            && r.kezan == ServerLine(kezan, None)
            && r.gurubashi == ServerLine(guru, None)
            && r.verdict == OverallStatus(auth, kezan, guru)
            && r.footer == ViaDefault)
  {
    var fetched := FetchRealmStatusData(poll);
    if fetched.Some? {
      var realms := Realms(fetched.value);
      assert EpochStatusApi.FirstNamed(realms, "Kezan") == Some(0);
      assert EpochStatusApi.FirstNamed(realms, "Gurubashi") == Some(1) by {
        assert realms[1..][0].name == Some("Gurubashi");
      }
    }
  }

  /** With the socket poller behind it, the command never reports a connection
      failure, and its verdict is the classification of this poll's three probe
      results. */
  lemma SocketStatusVerdict(tracker: ServerStatus.StateTable, probe: ServerStatus.Endpoint -> bool, now: ServerStatus.Timestamp)
    ensures var table := ServerStatus.MergeAll(tracker, ServerStatus.Names(ServerStatus.Servers), ServerStatus.ProbeAll(probe, ServerStatus.Servers), now);
      var r := StatusCommand(FetchRealmStatusData(EpochStatus.Polled(table)));
      && r.Report?
      && r.verdict == OverallStatus(probe(ServerStatus.Servers[0]), probe(ServerStatus.Servers[1]), probe(ServerStatus.Servers[2]))
  {
    var table := ServerStatus.MergeAll(tracker, ServerStatus.Names(ServerStatus.Servers), ServerStatus.ProbeAll(probe, ServerStatus.Servers), now);
    ServerStatus.PollCoversServers(tracker, probe, now);
    EpochStatus.SocketPollNeverEmpty(tracker, probe, now);
    FetchedReport(EpochStatus.Polled(table));
    assert ServerStatus.Servers[0].name == "Auth" && ServerStatus.Servers[1].name == "Kezan" && ServerStatus.Servers[2].name == "Gurubashi";
  }
}
