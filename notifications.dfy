/** The opt-in reactions of `cogs/notifications.py` (and the identical
    handlers at the top of `epoch-status.py`): a 🔔 reaction from a person
    opts them in to the Kezan pings of their guild, with their name when the
    bot can resolve the member; taking the reaction away opts them out. */
module Notifications {
  import opened Wrappers
  import opened Db

  const Bell := "\U{1F514}"

  /** The reacting member as Discord describes it. */
  datatype Member = Member(name: string, isBot: bool)

  /** A raw reaction event: emoji name, guild, user, and the member object
      (absent outside a guild). */
  datatype Payload = Payload(emoji: string, guild: GuildId, user: UserId, member: Option<Member>)

  /** What the name lookup of `add_optin_user` finds: whether `get_guild`
      knows the guild, the member in the cache, and the member `fetch_member`
      returns (`None` when it raises). */
  datatype MemberLookup = MemberLookup(guildFound: bool, cached: Option<Member>, fetched: Option<Member>)

  /** The name stored with an opt-in: the cached member's name, else the
      fetched member's, and `None` when the guild or the member cannot be
      found. */
  function ResolveName(l: MemberLookup): (r: Option<string>)
    ensures r.Some? <==> l.guildFound && (l.cached.Some? || l.fetched.Some?)
    ensures r.Some? && l.cached.Some? ==> r.value == l.cached.value.name
    ensures r.Some? && l.cached.None? ==> r.value == l.fetched.value.name
  {
    if !l.guildFound then None
    else if l.cached.Some? then Some(l.cached.value.name)
    else if l.fetched.Some? then Some(l.fetched.value.name)
    else None
  }

  /** What a reaction event does to the opt-in table. `Crash` is the
      `AttributeError` of reading `.bot` on a missing member: the handler
      stops and nothing is stored. */
  datatype Effect = NoChange | Subscribe(name: Option<string>) | Unsubscribe | Crash

  /** `on_raw_reaction_add`: the emoji is tested first, then the member. */
  function OnAdd(p: Payload, l: MemberLookup): (e: Effect)
    ensures e.Crash? <==> p.emoji == Bell && p.member.None?
    ensures e.Subscribe? <==> p.emoji == Bell && p.member.Some? && !p.member.value.isBot
    ensures e.Subscribe? ==> e.name == ResolveName(l)
    ensures !e.Unsubscribe?
  {
    if p.emoji != Bell then NoChange
    else if p.member.None? then Crash
    else if p.member.value.isBot then NoChange
    else Subscribe(ResolveName(l))
  }

  /** `on_raw_reaction_remove`: any 🔔 removal opts out, bot or not. */
  function OnRemove(p: Payload): (e: Effect)
    ensures e.Unsubscribe? <==> p.emoji == Bell
    ensures e.Unsubscribe? || e.NoChange?
  {
    if p.emoji == Bell then Unsubscribe else NoChange
  }

  function Apply(t: OptinTable, p: Payload, e: Effect): OptinTable {
    match e
    case Subscribe(name) => AddOptin(t, p.guild, p.user, name)
    case Unsubscribe => RemoveOptin(t, p.guild, p.user)
    case _ => t
  }

  /** A 🔔 from a person opts that person in, with the resolved name, and
      touches no other row. */
  lemma BellFromPersonOptsIn(t: OptinTable, p: Payload, l: MemberLookup)
    requires p.emoji == Bell && p.member.Some? && !p.member.value.isBot
    ensures var r := Apply(t, p, OnAdd(p, l));
      && (p.guild, p.user) in r && r[(p.guild, p.user)] == ResolveName(l)
      && GuildUsers(r, p.guild) == GuildUsers(t, p.guild) + {p.user}
      && forall k :: k in t && k != (p.guild, p.user) ==> k in r && r[k] == t[k]
  {
    AddOptinSpec(t, p.guild, p.user, ResolveName(l));
  }

  /** Any other emoji, a reaction by a bot, and a reaction without a member
      leave the table as it was. */
  lemma AddIgnored(t: OptinTable, p: Payload, l: MemberLookup)
    requires p.emoji != Bell || p.member.None? || p.member.value.isBot
    ensures Apply(t, p, OnAdd(p, l)) == t
    ensures OnAdd(p, l) == Crash <==> p.emoji == Bell && p.member.None?
  {
  }

  /** Removing a 🔔 opts the user out whoever they are; removing any other
      emoji changes nothing. */
  lemma RemoveSpec(t: OptinTable, p: Payload)
    ensures var r := Apply(t, p, OnRemove(p));
      && (p.emoji == Bell ==> GuildUsers(r, p.guild) == GuildUsers(t, p.guild) - {p.user}
                              && (p.guild, p.user) !in r)
      && (p.emoji != Bell ==> r == t)
  {
    RemoveOptinSpec(t, p.guild, p.user);
  }

  /** Adding and then removing the bell restores the table, except that a row
      the user already had is gone as well. */
  lemma ReactThenUnreact(t: OptinTable, p: Payload, l: MemberLookup)
    requires p.emoji == Bell && p.member.Some? && !p.member.value.isBot
    ensures Apply(Apply(t, p, OnAdd(p, l)), p, OnRemove(p)) == RemoveOptin(t, p.guild, p.user)
    ensures (p.guild, p.user) !in t ==> Apply(Apply(t, p, OnAdd(p, l)), p, OnRemove(p)) == t
  {
    AddThenRemove(t, p.guild, p.user, ResolveName(l));
  }

  /** The cog, holding the store it shares with the bot. */
  class NotificationsCog {
    const db: Database

    constructor (db: Database)
      ensures this.db == db
    {
      this.db := db;
    }

    /** `add_optin_user`: resolve the name, then upsert the row. */
    method AddOptinUser(guild: GuildId, user: UserId, l: MemberLookup)
      modifies db
      ensures db.optins == AddOptin(old(db.optins), guild, user, ResolveName(l))
      ensures db.guildSettings == old(db.guildSettings)
    {
      var name: Option<string> := None;
      if l.guildFound {
        var member := l.cached;
        if member.None? {
          member := l.fetched;
        }
        if member.Some? {
          name := Some(member.value.name);
        }
      }
      db.AddOptinUser(guild, user, name);
    }

    /** `on_raw_reaction_add`; `raised` tells whether the handler raised. */
    method OnRawReactionAdd(p: Payload, l: MemberLookup) returns (raised: bool)
      modifies db
      ensures raised <==> OnAdd(p, l) == Crash
      ensures db.optins == Apply(old(db.optins), p, OnAdd(p, l))
      ensures db.guildSettings == old(db.guildSettings)
    {
      raised := false;
      if p.emoji == Bell {
        if p.member.None? {
          raised := true;
          return;
        }
        if !p.member.value.isBot {
          AddOptinUser(p.guild, p.user, l);
        }
      }
    }

    /** `on_raw_reaction_remove`. */
    method OnRawReactionRemove(p: Payload)
      modifies db
      ensures db.optins == Apply(old(db.optins), p, OnRemove(p))
      ensures db.guildSettings == old(db.guildSettings)
    {
      if p.emoji == Bell {
        db.RemoveOptinUser(p.guild, p.user);
      }
    }
  }
}
