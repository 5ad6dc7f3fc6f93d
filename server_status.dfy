/** The socket poller of `server_status.py`: one reachability probe per
    monitored endpoint, folded into a process-wide table
    `name -> {online, lastOnline, lastChange}` that changes only when a server
    is first seen or when its reachability flips. */
module ServerStatus {
  import opened Wrappers

  /** The formatted wall-clock time of a poll (`now_str`). */
  type Timestamp = string

  datatype Endpoint = Endpoint(name: string, host: string, port: nat)

  /** `SERVERS`: the three monitored endpoints, in declaration order. */
  const Servers: seq<Endpoint> := [
    Endpoint("Auth", "game.project-epoch.net", 3724),
    Endpoint("Kezan", "game.project-epoch.net", 8085),
    Endpoint("Gurubashi", "game.project-epoch.net", 8086)
  ]

  /** One entry of `server_states`; `lastOnline` is the online value before the
      most recent flip (`None` until the first flip). */
  datatype ServiceStatus = ServiceStatus(online: bool, lastOnline: Option<bool>, lastChange: Timestamp)

  type StateTable = map<string, ServiceStatus>

  function Names(eps: seq<Endpoint>): (r: seq<string>)
    ensures |r| == |eps| && forall i :: 0 <= i < |eps| ==> r[i] == eps[i].name
  {
    seq(|eps|, i requires 0 <= i < |eps| => eps[i].name)
  }

  predicate Distinct(names: seq<string>) {
    forall i, j :: 0 <= i < j < |names| ==> names[i] != names[j]
  }

  lemma ServerNamesDistinct()
    ensures Distinct(Names(Servers))
  {
  }

  /** The outcome of probing every endpoint at once (`asyncio.gather` over
      `check_server`): one boolean per endpoint, in the same order. The TCP
      connect itself is the oracle `probe`. */
  function ProbeAll(probe: Endpoint -> bool, eps: seq<Endpoint>): (r: seq<bool>)
    ensures |r| == |eps| && forall i :: 0 <= i < |eps| ==> r[i] == probe(eps[i])
  {
    seq(|eps|, i requires 0 <= i < |eps| => probe(eps[i]))
  }

  function Lookup(table: StateTable, name: string): Option<ServiceStatus> {
    if name in table then Some(table[name]) else None
  }

  /** The entry a server has after one poll, given the entry it had before. */
  function Merged(prior: Option<ServiceStatus>, current: bool, now: Timestamp): (r: ServiceStatus)
    ensures r.online == current
    ensures prior.None? ==> r.lastOnline.None? && r.lastChange == now
    ensures prior.Some? && prior.value.online != current ==> r.lastOnline == Some(!current) && r.lastChange == now
    ensures prior.Some? && prior.value.online == current ==> r == prior.value
  {
    match prior
    case None => ServiceStatus(current, None, now)
    case Some(p) =>
      if current != p.online then ServiceStatus(current, Some(p.online), now) else p
  }

  /** The table after processing a prefix of the zipped (name, result) pairs;
      the last pair is processed last. */
  function MergeAll(table: StateTable, names: seq<string>, results: seq<bool>, now: Timestamp): (r: StateTable)
    requires |names| == |results|
    ensures table.Keys <= r.Keys
    ensures forall i :: 0 <= i < |names| ==> names[i] in r
  {
    if names == [] then table
    else
      var n := |names| - 1;
      var before := MergeAll(table, names[..n], results[..n], now);
      before[names[n] := Merged(Lookup(before, names[n]), results[n], now)]
  }

  /** A name the poll does not mention keeps its entry (or its absence). */
  lemma {:induction false} MergeAllElsewhere(table: StateTable, names: seq<string>, results: seq<bool>, now: Timestamp, k: string)
    requires |names| == |results|
    requires forall i :: 0 <= i < |names| ==> names[i] != k
    ensures Lookup(MergeAll(table, names, results, now), k) == Lookup(table, k)
  {
    if names != [] {
      var n := |names| - 1;
      MergeAllElsewhere(table, names[..n], results[..n], now, k);
    }
  }

  /** With distinct names, the entry of the i-th name is the merge of its own
      prior entry with the i-th probe result, whatever the other names do. */
  lemma {:induction false} MergeAllAt(table: StateTable, names: seq<string>, results: seq<bool>, now: Timestamp, i: nat)
    requires |names| == |results| && Distinct(names) && i < |names|
    ensures names[i] in MergeAll(table, names, results, now)
    ensures MergeAll(table, names, results, now)[names[i]] == Merged(Lookup(table, names[i]), results[i], now)
  {
    var n := |names| - 1;
    if i == n {
      MergeAllElsewhere(table, names[..n], results[..n], now, names[n]);
    } else {
      MergeAllAt(table, names[..n], results[..n], now, i);
    }
  }

  /** The keys after a poll are the old keys plus the polled names: nothing
      else is ever written. */
  lemma {:induction false} MergeAllKeys(table: StateTable, names: seq<string>, results: seq<bool>, now: Timestamp)
    requires |names| == |results|
    ensures MergeAll(table, names, results, now).Keys == table.Keys + set i | 0 <= i < |names| :: names[i]
  {
    if names != [] {
      var n := |names| - 1;
      MergeAllKeys(table, names[..n], results[..n], now);
      assert (set i | 0 <= i < |names| :: names[i]) == (set i | 0 <= i < n :: names[..n][i]) + {names[n]};
    }
  }

  /** What one poll does to the entry of each polled server: first sight
      creates `{current, None, now}`; a flip records the previous value and the
      time; no change leaves the entry as it was (the time is NOT refreshed).
      Either way `online` is this poll's result. */
  lemma PollEntry(table: StateTable, names: seq<string>, results: seq<bool>, now: Timestamp, i: nat)
    requires |names| == |results| && Distinct(names) && i < |names|
    ensures var r := MergeAll(table, names, results, now);
      && names[i] in r
      && r[names[i]].online == results[i]
      && (names[i] !in table ==> r[names[i]] == ServiceStatus(results[i], None, now))
      && (names[i] in table && table[names[i]].online != results[i] ==>
            r[names[i]] == ServiceStatus(results[i], Some(table[names[i]].online), now))
      && (names[i] in table && table[names[i]].online == results[i] ==> r[names[i]] == table[names[i]])
  {
    MergeAllAt(table, names, results, now, i);
  }

  /** Polling again with the same probe results changes nothing, whatever the
      time: the change timestamps stay put. */
  lemma RepollIdempotent(table: StateTable, names: seq<string>, results: seq<bool>, t1: Timestamp, t2: Timestamp)
    requires |names| == |results| && Distinct(names)
    ensures MergeAll(MergeAll(table, names, results, t1), names, results, t2) == MergeAll(table, names, results, t1)
  {
    var once := MergeAll(table, names, results, t1);
    var twice := MergeAll(once, names, results, t2);
    MergeAllKeys(table, names, results, t1);
    MergeAllKeys(once, names, results, t2);
    forall k | k in twice
      ensures k in once && twice[k] == once[k]
    {
      if i :| 0 <= i < |names| && names[i] == k {
        MergeAllAt(table, names, results, t1, i);
        MergeAllAt(once, names, results, t2, i);
      } else {
        MergeAllElsewhere(once, names, results, t2, k);
      }
    }
  }

  /** The table after a run of polls that all see the same results. */
  function PollRun(table: StateTable, names: seq<string>, results: seq<bool>, times: seq<Timestamp>): StateTable
    requires |names| == |results|
    decreases |times|
  {
    if times == [] then table
    else PollRun(MergeAll(table, names, results, times[0]), names, results, times[1..])
  }

  /** Debounce: across any number of polls with unchanged results, the table is
      what the first poll made it, so each change time is set at most once. */
  lemma {:induction false} PollRunIsFirstPoll(table: StateTable, names: seq<string>, results: seq<bool>, times: seq<Timestamp>)
    requires |names| == |results| && Distinct(names) && |times| > 0
    decreases |times|
    ensures PollRun(table, names, results, times) == MergeAll(table, names, results, times[0])
  {
    if |times| > 1 {
      var once := MergeAll(table, names, results, times[0]);
      PollRunIsFirstPoll(once, names, results, times[1..]);
      RepollIdempotent(table, names, results, times[0], times[1]);
    }
  }

  /** The owner of `server_states`. */
  class StatusTracker {
    var states: StateTable

    constructor ()
      ensures states == map[]
    {
      states := map[];
    }

    /** `poll_servers_socket`: probe every endpoint, then merge the results
        into the table in `SERVERS` order. The value returned is the tracker
        itself, not a copy, as the source returns its module-level dict. */
    method PollServersSocket(probe: Endpoint -> bool, now: Timestamp) returns (r: StatusTracker)
      modifies this
      ensures r == this
      ensures states == MergeAll(old(states), Names(Servers), ProbeAll(probe, Servers), now)
    {
      var results := ProbeAll(probe, Servers);
      var names := Names(Servers);
      var i := 0;
      while i < |Servers|
        invariant 0 <= i <= |Servers|
        invariant states == MergeAll(old(states), names[..i], results[..i], now)
      {
        var name, current := names[i], results[i];
        if name !in states {
          states := states[name := ServiceStatus(current, None, now)];
        } else if current != states[name].online {
          var previous := states[name].online;
          states := states[name := ServiceStatus(current, Some(previous), now)];
        }
        assert names[..i + 1][..i] == names[..i] && results[..i + 1][..i] == results[..i];
        i := i + 1;
      }
      assert names[..i] == names && results[..i] == results;
      r := this;
    }
  }

  /** After a poll every monitored server has an entry whose `online` is what
      its probe said, and the table holds no name besides the old ones and the
      three monitored ones. */
  lemma PollCoversServers(table: StateTable, probe: Endpoint -> bool, now: Timestamp)
    ensures var r := MergeAll(table, Names(Servers), ProbeAll(probe, Servers), now);
      && (forall i :: 0 <= i < |Servers| ==> Servers[i].name in r && r[Servers[i].name].online == probe(Servers[i]))
      && r.Keys == table.Keys + {"Auth", "Kezan", "Gurubashi"}
  {
    var names, results := Names(Servers), ProbeAll(probe, Servers);
    ServerNamesDistinct();
    forall i | 0 <= i < |Servers|
      ensures Servers[i].name in MergeAll(table, names, results, now)
      ensures MergeAll(table, names, results, now)[Servers[i].name].online == probe(Servers[i])
    {
      PollEntry(table, names, results, now, i);
    }
    MergeAllKeys(table, names, results, now);
    assert (set i | 0 <= i < |names| :: names[i]) == {"Auth", "Kezan", "Gurubashi"} by {
      assert names[0] == "Auth" && names[1] == "Kezan" && names[2] == "Gurubashi";
    }
  }
}
