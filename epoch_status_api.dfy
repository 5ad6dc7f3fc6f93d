/** The older, API-driven bot of `epoch-status.py`: it fetches a JSON status
    document, reads the auth flag and the Kezan realm from it, and runs the
    same per-guild edge notifier as the socket bot, with its own records. Its
    `!status` command turns the same document into a short text. The JSON
    document shape defined here is also the one `cogs/status.py` builds. */
module EpochStatusApi {
  import opened Wrappers
  import opened Text
  import EpochStatus

  /** One element of the `realms` array. `lastOnline` is only ever read by the
      status cog's embed. */
  datatype Realm = Realm(name: Option<string>, worldServerOnline: Option<bool>, lastOnline: Option<string>)

  /** The fields of the status document the bot reads; `None` is an absent key. */
  datatype ApiData = ApiData(status: Option<string>, authServerStatus: Option<bool>, realms: Option<seq<Realm>>)

  /** What `requests.get(API_URL)` gave: a transport error, or a response with
      an HTTP status code and a body that either parsed as a JSON object or
      did not. */
  datatype FetchOutcome = RequestFailed | Response(code: nat, body: Option<ApiData>)

  /** `CHECK_INTERVAL_SECONDS` of this bot: the environment value when it
      parses as an integer, 10 when it is unset or does not parse. */
  function CheckIntervalSeconds(env: Option<string>): (r: int)
    ensures env.None? || ParseInt(env.value).None? ==> r == 10
    ensures env.Some? && ParseInt(env.value).Some? ==> r == ParseInt(env.value).value
  {
    IntSetting(env, 10)
  }

  /** `response.raise_for_status()` raises for client and server errors. */
  predicate IsHttpError(code: nat) {
    400 <= code < 600
  }

  /** `fetch_realm_status_data`: every failure (transport, HTTP status, JSON
      decoding) folds into `None`; otherwise the whole document. */
  function FetchRealmStatusData(o: FetchOutcome): (r: Option<ApiData>)
    ensures r.Some? <==> o.Response? && !IsHttpError(o.code) && o.body.Some?
    ensures r.Some? ==> r.value == o.body.value
  {
    match o
    case RequestFailed => None
    case Response(code, body) => if IsHttpError(code) then None else body
  }

  /** `next((realm for realm in realms if realm.get("name") == name), None)`:
      the index of the first realm with that name. */
  function FirstNamed(realms: seq<Realm>, name: string): (r: Option<nat>)
    ensures r.Some? ==> r.value < |realms| && realms[r.value].name == Some(name)
    ensures r.Some? ==> forall j :: 0 <= j < r.value ==> realms[j].name != Some(name)
    ensures r.None? ==> forall j :: 0 <= j < |realms| ==> realms[j].name != Some(name)
  {
    if realms == [] then None
    else if realms[0].name == Some(name) then Some(0)
    else match FirstNamed(realms[1..], name)
      case None => None
      case Some(i) => Some(i + 1)
  }

  /** A realm counts as online when the first realm with its name says
      `worldServerOnline: true`; an absent realm or flag counts as offline. */
  function RealmOnline(realms: seq<Realm>, name: string): bool {
    match FirstNamed(realms, name)
    case None => false
    case Some(i) => realms[i].worldServerOnline.GetOr(false)
  }

  /** A realm reads as online exactly when some realm of that name, with no
      earlier realm of the same name, carries `worldServerOnline: true`. */
  lemma RealmOnlineSpec(realms: seq<Realm>, name: string)
    ensures RealmOnline(realms, name) <==>
      exists i :: 0 <= i < |realms| && realms[i].name == Some(name) && realms[i].worldServerOnline == Some(true) &&
        forall j :: 0 <= j < i ==> realms[j].name != Some(name)
  {
    if RealmOnline(realms, name) {
      var i := FirstNamed(realms, name).value;
      assert realms[i].worldServerOnline == Some(true);
    }
  }

  function AuthStatus(data: ApiData): bool {
    data.authServerStatus.GetOr(false)
  }

  function KezanStatus(data: ApiData): bool {
    RealmOnline(data.realms.GetOr([]), "Kezan")
  }

  /** `check_realm_status` of the API bot: a failed fetch ends the tick with
      no message and no record change; otherwise the guilds are evaluated
      with the document's auth flag and Kezan realm flag. Unlike the socket
      bot, an empty document is evaluated (everything reads as offline). */
  method CheckRealmStatus(n: EpochStatus.RealmNotifier, fetched: FetchOutcome, guilds: seq<EpochStatus.GuildView>)
    modifies n
    ensures FetchRealmStatusData(fetched).None? ==> n.lastStatus == old(n.lastStatus) && n.sent == old(n.sent)
    ensures FetchRealmStatusData(fetched).Some? ==>
      var data := FetchRealmStatusData(fetched).value;
      && n.lastStatus == EpochStatus.TickRecords(old(n.lastStatus), AuthStatus(data), KezanStatus(data), guilds)
      && n.sent == old(n.sent) + EpochStatus.TickSent(old(n.lastStatus), AuthStatus(data), KezanStatus(data), guilds)
  {
    var data := FetchRealmStatusData(fetched);
    if data.None? {
      return;
    }
    var auth := data.value.authServerStatus.GetOr(false);
    var realms := data.value.realms.GetOr([]);
    var kezan := false;
    match FirstNamed(realms, "Kezan") {
      case Some(i) => kezan := realms[i].worldServerOnline.GetOr(false);
      case None =>
    }
    n.CheckGuilds(auth, kezan, guilds);
  }

  /** What `!status` reports: the upper-cased `status` field with the auth
      and Kezan flags, or the failure text. */
  datatype StatusReply = Unavailable | Report(status: string, auth: bool, kezan: bool)

  /** The reply of `!status`: a report when the document is there and has a
      non-empty `status`; the failure text otherwise. The flags are read the
      way the notifier reads them. */
  function StatusCommandReply(data: Option<ApiData>): (r: StatusReply)
    ensures r.Report? <==> data.Some? && data.value.status.Some? && |data.value.status.value| > 0
    ensures r.Report? ==> |r.status| == |data.value.status.value|
    ensures r.Report? ==> forall i :: 0 <= i < |r.status| ==>
      && !IsLower(r.status[i])
      && (IsLower(data.value.status.value[i]) ==> r.status[i] as int == data.value.status.value[i] as int - 32)
      && (!IsLower(data.value.status.value[i]) ==> r.status[i] == data.value.status.value[i])
    ensures r.Report? ==> r.status == Upper(data.value.status.value)
    ensures r.Report? ==> (r.auth <==> data.value.authServerStatus == Some(true))
    ensures r.Report? ==> (r.kezan <==>
      var realms := data.value.realms.GetOr([]);
      exists i :: 0 <= i < |realms| && realms[i].name == Some("Kezan") && realms[i].worldServerOnline == Some(true) &&
        forall j :: 0 <= j < i ==> realms[j].name != Some("Kezan"))
  {
    if data.Some? && data.value.status.Some? && |data.value.status.value| > 0 then
      var d := data.value;
      UpperIdempotent(d.status.value);
      RealmOnlineSpec(d.realms.GetOr([]), "Kezan");
      Report(Upper(d.status.value), AuthStatus(d), KezanStatus(d))
    else Unavailable
  }

  function OnOff(b: bool): string {
    if b then "ONLINE" else "OFFLINE"
  }

  const Unreachable := "Could not retrieve realm status at this time. The API might be down."
  const StatusLead := "The Project Epoch realm is currently **"
  const AuthLead := "**.\nAuth server: "
  const KezanLead := "\nKezan world server: "

  /** The text the "Checking realm status..." message is edited to: the
      failure text, or the status between the bold markers, then the auth
      flag and the Kezan flag each on its own line. */
  function ReplyText(r: StatusReply): (t: string)
    ensures r.Unavailable? ==> t == Unreachable
    ensures r.Report? ==> Laid(t, StatusLead, r.status, AuthLead, OnOff(r.auth), KezanLead, OnOff(r.kezan))
  {
    match r
    case Unavailable => Unreachable
    case Report(status, auth, kezan) => Lay(StatusLead, status, AuthLead, OnOff(auth), KezanLead, OnOff(kezan))
  }

  /** `t` is `p` `x` `q` `y` `s` `z`, each piece found at its own offset. */
  predicate Laid(t: string, p: string, x: string, q: string, y: string, s: string, z: string) {
    var a := |p| + |x|;
    var b := a + |q|;
    var c := b + |y|;
    && |t| == c + |s| + |z|
    && t[..|p|] == p
    && t[|p|..a] == x
    && t[a..b] == q
    && t[b..c] == y
    && t[c..c + |s|] == s
    && t[c + |s|..] == z
  }

  function Lay(p: string, x: string, q: string, y: string, s: string, z: string): (t: string)
    ensures Laid(t, p, x, q, y, s, z)
  {
    var t := p + x + q + y + s + z;
    var a := |p| + |x|;
    var b := a + |q|;
    var c := b + |y|;
    assert t[..|p|] == p;
    assert t[|p|..a] == x;
    assert t[a..b] == q;
    assert t[b..c] == y;
    assert t[c..c + |s|] == s;
    assert t[c + |s|..] == z;
    t
  }
}
