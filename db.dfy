/** The settings store of `db.py`: the `guild_settings` table (one
    notification channel per guild) and the `notification_optins` table (one
    row per guild and user, with the user's name when it was known). Each
    table is a map keyed by the table's primary key; `INSERT OR REPLACE` is a
    map update and `DELETE` a key removal. */
module Db {
  import opened Wrappers

  type GuildId = nat
  type ChannelId = nat
  type UserId = nat

  /** A row of `get_optin_users`: the user id and the stored name. */
  datatype OptIn = OptIn(userId: UserId, name: Option<string>)

  /** `guild_settings`, keyed by `guild_id`. */
  type SettingsTable = map<GuildId, ChannelId>

  /** `notification_optins`, keyed by `(guild_id, user_id)`. */
  type OptinTable = map<(GuildId, UserId), Option<string>>

  /** The answer of `get_notification_channel`. */
  function ChannelOf(settings: SettingsTable, guild: GuildId): (r: Option<ChannelId>)
    ensures r.Some? <==> guild in settings
    ensures r.Some? ==> r.value == settings[guild]
  {
    if guild in settings then Some(settings[guild]) else None
  }

  /** The users opted in for a guild. */
  function GuildUsers(t: OptinTable, guild: GuildId): set<UserId> {
    set k | k in t && k.0 == guild :: k.1
  }

  /** `rows` lists the guild's opt-in rows exactly: every row it lists is in
      the table with that name, every user of the guild is listed, and no
      user is listed twice. The order is left open, as SQL leaves it. */
  predicate ListsGuildRows(t: OptinTable, guild: GuildId, rows: seq<OptIn>) {
    && (forall i :: 0 <= i < |rows| ==> (guild, rows[i].userId) in t && t[(guild, rows[i].userId)] == rows[i].name)
    && (forall k :: k in t && k.0 == guild ==> exists i :: 0 <= i < |rows| && rows[i].userId == k.1)
    && (forall i, j :: 0 <= i < j < |rows| ==> rows[i].userId != rows[j].userId)
  }

  /** `add_optin_user`: insert the row, or replace the name of an existing one. */
  function AddOptin(t: OptinTable, guild: GuildId, user: UserId, name: Option<string>): OptinTable {
    t[(guild, user) := name]
  }

  /** `remove_optin_user`: delete the row if there is one. */
  function RemoveOptin(t: OptinTable, guild: GuildId, user: UserId): OptinTable {
    t - {(guild, user)}
  }

  /** Adding an existing user replaces the name and adds no row; adding a new
      one adds exactly that user; no other row changes. */
  lemma AddOptinSpec(t: OptinTable, guild: GuildId, user: UserId, name: Option<string>)
    ensures var r := AddOptin(t, guild, user, name);
      && GuildUsers(r, guild) == GuildUsers(t, guild) + {user}
      && r[(guild, user)] == name
      && (forall k :: k in t && k != (guild, user) ==> k in r && r[k] == t[k])
      && |r| == if (guild, user) in t then |t| else |t| + 1
  {
    var r := AddOptin(t, guild, user, name);
    assert user in GuildUsers(r, guild) by { assert (guild, user) in r; }
    forall u | u in GuildUsers(t, guild) ensures u in GuildUsers(r, guild) {
      assert (guild, u) in r;
    }
    forall u | u in GuildUsers(r, guild) ensures u in GuildUsers(t, guild) + {user} {
      if u != user { assert (guild, u) in t; }
    }
  }

  /** Removing deletes only the matching pair; removing an absent pair leaves
      the table as it was. */
  lemma RemoveOptinSpec(t: OptinTable, guild: GuildId, user: UserId)
    ensures var r := RemoveOptin(t, guild, user);
      && GuildUsers(r, guild) == GuildUsers(t, guild) - {user}
      && (forall k :: k in t && k != (guild, user) ==> k in r && r[k] == t[k])
      && ((guild, user) !in t ==> r == t)
  {
    var r := RemoveOptin(t, guild, user);
    forall u | u in GuildUsers(t, guild) - {user} ensures u in GuildUsers(r, guild) {
      assert (guild, u) in r;
    }
    forall u | u in GuildUsers(r, guild) ensures u in GuildUsers(t, guild) - {user} {
      assert (guild, u) in t;
    }
  }

  /** Adding and then removing the same pair is the same as removing it: the
      stored name does not survive. */
  lemma AddThenRemove(t: OptinTable, guild: GuildId, user: UserId, name: Option<string>)
    ensures RemoveOptin(AddOptin(t, guild, user, name), guild, user) == RemoveOptin(t, guild, user)
  {
  }

  /** Opt-in operations on one guild leave every other guild's rows as they
      were. */
  lemma OtherGuildsUntouched(t: OptinTable, guild: GuildId, user: UserId, name: Option<string>, other: GuildId, rows: seq<OptIn>)
    requires other != guild
    ensures GuildUsers(AddOptin(t, guild, user, name), other) == GuildUsers(t, other)
    ensures GuildUsers(RemoveOptin(t, guild, user), other) == GuildUsers(t, other)
    ensures ListsGuildRows(t, other, rows) <==> ListsGuildRows(AddOptin(t, guild, user, name), other, rows)
    ensures ListsGuildRows(t, other, rows) <==> ListsGuildRows(RemoveOptin(t, guild, user), other, rows)
  {
    var a, d := AddOptin(t, guild, user, name), RemoveOptin(t, guild, user);
    forall u | u in GuildUsers(t, other) ensures u in GuildUsers(a, other) && u in GuildUsers(d, other) {
      assert (other, u) in a && (other, u) in d;
    }
    forall u | u in GuildUsers(a, other) ensures u in GuildUsers(t, other) {
      assert (other, u) in t;
    }
    forall u | u in GuildUsers(d, other) ensures u in GuildUsers(t, other) {
      assert (other, u) in t;
    }
  }

  /** A listing has one row per opted-in user. */
  lemma {:induction false} ListingSize(t: OptinTable, guild: GuildId, rows: seq<OptIn>)
    requires ListsGuildRows(t, guild, rows)
    ensures |rows| == |GuildUsers(t, guild)|
  {
    var users := set i | 0 <= i < |rows| :: rows[i].userId;
    assert users == GuildUsers(t, guild) by {
      forall u | u in GuildUsers(t, guild) ensures u in users {
        var k := (guild, u);
        assert k in t;
      }
    }
    DistinctIdsSize(rows);
  }

  /** The ids of rows with pairwise distinct ids number as many as the rows. */
  lemma {:induction false} DistinctIdsSize(rows: seq<OptIn>)
    requires forall i, j :: 0 <= i < j < |rows| ==> rows[i].userId != rows[j].userId
    ensures |set i | 0 <= i < |rows| :: rows[i].userId| == |rows|
  {
    if rows != [] {
      var n := |rows| - 1;
      DistinctIdsSize(rows[..n]);
      var front := set i | 0 <= i < n :: rows[..n][i].userId;
      assert (set i | 0 <= i < |rows| :: rows[i].userId) == front + {rows[n].userId};
      assert rows[n].userId !in front;
    }
  }

  /** The two tables, owned by one store. */
  class Database {
    var guildSettings: SettingsTable
    var optins: OptinTable

    /** `Database(db_file)`: `CREATE TABLE IF NOT EXISTS` keeps whatever rows
        the file already holds, so the store starts with those. */
    constructor (settings: SettingsTable, rows: OptinTable)
      ensures guildSettings == settings && optins == rows
    {
      guildSettings := settings;
      optins := rows;
    }

    /** `set_notification_channel`: `INSERT OR REPLACE` on `guild_settings`. */
    method SetNotificationChannel(guild: GuildId, channel: ChannelId)
      modifies this
      ensures guildSettings == old(guildSettings)[guild := channel]
      ensures optins == old(optins)
      ensures ChannelOf(guildSettings, guild) == Some(channel)
      ensures forall g :: g != guild ==> ChannelOf(guildSettings, g) == ChannelOf(old(guildSettings), g)
    {
      guildSettings := guildSettings[guild := channel];
    }

    /** `get_notification_channel`: the stored channel, or `None` for a guild
        that was never set. */
    method GetNotificationChannel(guild: GuildId) returns (r: Option<ChannelId>)
      ensures r.Some? <==> guild in guildSettings
      ensures r.Some? ==> r.value == guildSettings[guild]
    {
      if guild in guildSettings {
        r := Some(guildSettings[guild]);
      } else {
        r := None;
      }
    }

    /** `add_optin_user`: `INSERT OR REPLACE` on `notification_optins`. */
    method AddOptinUser(guild: GuildId, user: UserId, name: Option<string>)
      modifies this
      ensures optins == AddOptin(old(optins), guild, user, name)
      ensures guildSettings == old(guildSettings)
    {
      optins := optins[(guild, user) := name];
    }

    /** `remove_optin_user`: `DELETE` of the matching row, if any. */
    method RemoveOptinUser(guild: GuildId, user: UserId)
      modifies this
      ensures optins == RemoveOptin(old(optins), guild, user)
      ensures guildSettings == old(guildSettings)
    {
      optins := optins - {(guild, user)};
    }

    /** `get_optin_users`: every `(user_id, user_name)` row of the guild, each
        once, in whatever order the rows come. */
    method GetOptinUsers(guild: GuildId) returns (rows: seq<OptIn>)
      ensures ListsGuildRows(optins, guild, rows)
      ensures |rows| == |GuildUsers(optins, guild)|
    {
      var remaining := GuildUsers(optins, guild);
      rows := [];
      while remaining != {}
        invariant remaining <= GuildUsers(optins, guild)
        invariant |rows| + |remaining| == |GuildUsers(optins, guild)|
        invariant forall i :: 0 <= i < |rows| ==>
          (guild, rows[i].userId) in optins && optins[(guild, rows[i].userId)] == rows[i].name
        invariant forall i :: 0 <= i < |rows| ==> rows[i].userId !in remaining
        invariant forall u :: u in GuildUsers(optins, guild) && u !in remaining ==>
          exists i :: 0 <= i < |rows| && rows[i].userId == u
        invariant forall i, j :: 0 <= i < j < |rows| ==> rows[i].userId != rows[j].userId
        decreases |remaining|
      {
        var u :| u in remaining;
        assert (guild, u) in optins;
        ghost var before := rows;
        rows := rows + [OptIn(u, optins[(guild, u)])];
        remaining := remaining - {u};
        forall v | v in GuildUsers(optins, guild) && v !in remaining
          ensures exists i :: 0 <= i < |rows| && rows[i].userId == v
        {
          if v == u {
            assert rows[|rows| - 1].userId == v;
          } else {
            var i :| 0 <= i < |before| && before[i].userId == v;
            assert rows[i] == before[i];
          }
        }
      }
      forall k | k in optins && k.0 == guild
        ensures exists i :: 0 <= i < |rows| && rows[i].userId == k.1
      {
        assert k.1 in GuildUsers(optins, guild);
      }
    }
  }
}
