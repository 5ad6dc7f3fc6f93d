/** The stateful side of `cogs/gambling.py`: the balance, jackpot and bet
    tables the commands read and write, and the commands themselves (`!bet`,
    the winner computation, `!confirm-winner` with its payout, the 💰
    donation reaction and `!broke`). The gambling tables are not defined in
    `db.py`; they are modelled as maps and a row sequence with the obvious
    get/set meaning: an unknown balance reads as the starting balance and an
    unknown jackpot as an empty pot with multiplier 1. */
module GamblingCog {
  import opened Wrappers
  import opened Db
  import opened Gambling
  import Notifications

  // ---------------------------------------------------------------------
  // Tables
  // ---------------------------------------------------------------------

  /** A row of `gambling_jackpots`. */
  datatype Jackpot = Jackpot(pot: int, multiplier: int, lastResetDay: Option<Day>)

  /** A row of `gambling_bets`. */
  datatype BetRow = BetRow(guild: GuildId, userId: Gambler, userName: string, amount: int,
                           predictedTimestamp: int, placedAt: int, day: Day, active: bool)

  /** `gambling_balances`, keyed by guild and user. */
  type Balances = map<(GuildId, Gambler), int>

  /** `get_gambling_balance(guild, user, 100)`. */
  function BalanceOf(b: Balances, guild: GuildId, user: Gambler): (r: int)
    ensures (guild, user) !in b ==> r == StartingBalance
    ensures (guild, user) in b ==> r == b[(guild, user)]
  {
    if (guild, user) in b then b[(guild, user)] else StartingBalance
  }

  /** `get_current_jackpot`: a guild without a row has an empty pot. */
  function JackpotOf(j: map<GuildId, Jackpot>, guild: GuildId): (r: Jackpot)
    ensures guild !in j ==> r == Jackpot(0, 1, None)
    ensures guild in j ==> r == j[guild]
  {
    if guild in j then j[guild] else Jackpot(0, 1, None)
  }

  /** `update_jackpot(guild, amount, day)`: the stake goes into the pot; the
      multiplier and the reset day stay as they were. */
  function AddToJackpot(j: map<GuildId, Jackpot>, guild: GuildId, amount: int): map<GuildId, Jackpot> {
    var cur := JackpotOf(j, guild);
    j[guild := cur.(pot := cur.pot + amount)]
  }

  /** No balance and no pot is negative. */
  predicate Solvent(b: Balances, j: map<GuildId, Jackpot>) {
    && (forall k :: k in b ==> b[k] >= 0)
    && (forall g :: g in j ==> j[g].pot >= 0)
  }

  predicate IsActiveOn(row: BetRow, guild: GuildId, day: Day) {
    row.guild == guild && row.day == day && row.active
  }

  function AsBet(row: BetRow): Bet {
    Bet(row.userName, row.amount, row.predictedTimestamp)
  }

  /** `get_active_gambling_bets_for_day`: the guild's active bets of that
      day, in the order they were placed. */
  function ActiveBets(rows: seq<BetRow>, guild: GuildId, day: Day): (r: seq<Bet>)
    ensures |r| <= |rows|
  {
    if rows == [] then []
    else
      var n := |rows| - 1;
      ActiveBets(rows[..n], guild, day) + if IsActiveOn(rows[n], guild, day) then [AsBet(rows[n])] else []
  }

  /** The day's list is empty exactly when no row is an active bet of that
      guild and day. */
  lemma {:induction false} ActiveBetsEmpty(rows: seq<BetRow>, guild: GuildId, day: Day)
    ensures ActiveBets(rows, guild, day) == [] <==> forall i :: 0 <= i < |rows| ==> !IsActiveOn(rows[i], guild, day)
  {
    if rows != [] {
      var n := |rows| - 1;
      ActiveBetsEmpty(rows[..n], guild, day);
      assert forall i :: 0 <= i < n ==> rows[..n][i] == rows[i];
    }
  }

  /** A stored bet joins the end of its day's list and leaves every other
      list as it was. */
  lemma PlacedBetListed(rows: seq<BetRow>, row: BetRow, guild: GuildId, day: Day)
    requires row.active
    ensures ActiveBets(rows + [row], guild, day) ==
      ActiveBets(rows, guild, day) + if row.guild == guild && row.day == day then [AsBet(row)] else []
  {
    assert (rows + [row])[..|rows|] == rows;
  }

  /** `UPDATE gambling_bets SET is_active = 0 WHERE guild_id = ? AND
      betting_day = ?`. */
  function Deactivate(rows: seq<BetRow>, guild: GuildId, day: Day): (r: seq<BetRow>)
    ensures |r| == |rows|
    ensures forall i :: 0 <= i < |rows| && (rows[i].guild != guild || rows[i].day != day) ==> r[i] == rows[i]
    ensures forall i :: 0 <= i < |rows| && rows[i].guild == guild && rows[i].day == day ==>
      r[i] == rows[i].(active := false)
  {
    seq(|rows|, i requires 0 <= i < |rows| =>
      if rows[i].guild == guild && rows[i].day == day then rows[i].(active := false) else rows[i])
  }

  /** After the deactivation the day has no active bets left, and every other
      guild and day keeps its list. */
  lemma {:induction false} DeactivateSpec(rows: seq<BetRow>, guild: GuildId, day: Day, g: GuildId, d: Day)
    ensures ActiveBets(Deactivate(rows, guild, day), g, d) ==
      if g == guild && d == day then [] else ActiveBets(rows, g, d)
  {
    if rows != [] {
      var n := |rows| - 1;
      var r := Deactivate(rows, guild, day);
      assert r[..n] == Deactivate(rows[..n], guild, day);
      DeactivateSpec(rows[..n], guild, day, g, d);
    }
  }

  /** Whether a bet row is the one the payout query selects for a winner. */
  predicate PaysTo(row: BetRow, guild: GuildId, w: Winner, day: Day) {
    row.guild == guild && row.userName == w.userName && row.predictedTimestamp == w.predictedTimestamp && row.day == day
  }

  /** `SELECT user_id FROM gambling_bets WHERE guild_id = ? AND user_name = ?
      AND predicted_timestamp = ? AND betting_day = ?` with `fetchone`: the
      first matching row, active or not. */
  function FirstPaid(rows: seq<BetRow>, guild: GuildId, w: Winner, day: Day): (r: Option<nat>)
    ensures r.Some? ==> r.value < |rows| && PaysTo(rows[r.value], guild, w, day)
    ensures r.Some? ==> forall j :: 0 <= j < r.value ==> !PaysTo(rows[j], guild, w, day)
    ensures r.None? ==> forall j :: 0 <= j < |rows| ==> !PaysTo(rows[j], guild, w, day)
  {
    if rows == [] then None
    else if PaysTo(rows[0], guild, w, day) then Some(0)
    else match FirstPaid(rows[1..], guild, w, day)
      case None => None
      case Some(i) => Some(i + 1)
  }

  function Payee(rows: seq<BetRow>, guild: GuildId, w: Winner, day: Day): Option<Gambler> {
    match FirstPaid(rows, guild, w, day)
    case None => None
    case Some(i) => Some(rows[i].userId)
  }

  /** The balances after crediting each resolvable winner, in order. */
  function PayWinners(b: Balances, rows: seq<BetRow>, guild: GuildId, winners: seq<Winner>, payout: int, day: Day): (r: Balances)
    ensures b.Keys <= r.Keys
    ensures forall k :: k in r && k !in b ==> k.0 == guild
  {
    if winners == [] then b
    else
      var n := |winners| - 1;
      var before := PayWinners(b, rows, guild, winners[..n], payout, day);
      match Payee(rows, guild, winners[n], day)
      case None => before
      case Some(u) => before[(guild, u) := BalanceOf(before, guild, u) + payout]
  }

  /** How many of the winners the query resolves to `user`. */
  function PaidCount(rows: seq<BetRow>, guild: GuildId, winners: seq<Winner>, day: Day, user: Gambler): nat {
    if winners == [] then 0
    else
      var n := |winners| - 1;
      PaidCount(rows, guild, winners[..n], day, user) + if Payee(rows, guild, winners[n], day) == Some(user) then 1 else 0
  }

  /** Each user of the guild gains the payout once per winner that resolves
      to them; every other guild's balances are untouched. */
  lemma {:induction false} PayWinnersSpec(b: Balances, rows: seq<BetRow>, guild: GuildId, winners: seq<Winner>,
                                          payout: int, day: Day, g: GuildId, user: Gambler)
    ensures BalanceOf(PayWinners(b, rows, guild, winners, payout, day), g, user) ==
      BalanceOf(b, g, user) + if g == guild then payout * PaidCount(rows, guild, winners, day, user) else 0
  {
    if winners != [] {
      var n := |winners| - 1;
      var pre := winners[..n];
      PayWinnersSpec(b, rows, guild, pre, payout, day, g, user);
      var before := PayWinners(b, rows, guild, pre, payout, day);
      var after := PayWinners(b, rows, guild, winners, payout, day);
      var c := PaidCount(rows, guild, pre, day, user);
      if Payee(rows, guild, winners[n], day) == Some(user) {
        assert PaidCount(rows, guild, winners, day, user) == c + 1;
        assert after == before[(guild, user) := BalanceOf(before, guild, user) + payout];
        ShareOnceMore(payout, c);
      } else {
        assert PaidCount(rows, guild, winners, day, user) == c;
        assert BalanceOf(after, g, user) == BalanceOf(before, g, user);
      }
    }
  }

  /** One more share adds the payout once. */
  lemma ShareOnceMore(payout: int, count: nat)
    ensures payout * (count + 1) == payout * count + payout
  {
  }

  /** Paying a non-negative share keeps every balance non-negative. */
  lemma PayWinnersSolvent(b: Balances, j: map<GuildId, Jackpot>, rows: seq<BetRow>, guild: GuildId,
                          winners: seq<Winner>, payout: int, day: Day)
    requires Solvent(b, j) && payout >= 0
    ensures Solvent(PayWinners(b, rows, guild, winners, payout, day), j)
  {
    var r := PayWinners(b, rows, guild, winners, payout, day);
    forall k | k in r ensures r[k] >= 0 {
      PayWinnersSpec(b, rows, guild, winners, payout, day, k.0, k.1);
      var c := PaidCount(rows, guild, winners, day, k.1);
      assert payout * c >= 0;
    }
  }

  // ---------------------------------------------------------------------
  // Winners
  // ---------------------------------------------------------------------

  /** What `calculate_and_announce_winners` hands back. */
  datatype WinnerData = WinnerData(winners: seq<Winner>, jackpotAmount: int, payoutPerWinner: int,
                                   minDifference: nat, actualLaunchTime: int, bettingDay: Day)

  /** The winner record of a day's bets against the actual launch time. */
  function WinnerReport(bets: seq<Bet>, jackpot: int, actual: int, day: Day): (r: Option<WinnerData>)
    ensures r.None? <==> bets == []
  {
    if bets == [] then None
    else
      var m := MinDiff(bets, actual);
      var w := Closest(bets, actual, m);
      Some(WinnerData(w, jackpot, PayoutPerWinner(jackpot, |w|), m, actual, day))
  }

  /** A winner record names at least one winner; its winners are exactly the
      bets nearest the launch, in the order they were placed; and a
      non-negative jackpot is split into equal shares that together do not
      exceed it. */
  lemma WinnerReportSpec(bets: seq<Bet>, jackpot: int, actual: int, day: Day)
    requires bets != []
    ensures var r := WinnerReport(bets, jackpot, actual, day).value;
      && r.winners == Closest(bets, actual, r.minDifference)
      && |r.winners| > 0
      && (forall i :: 0 <= i < |bets| ==> r.minDifference <= Diff(bets[i], actual))
      && (forall i :: 0 <= i < |bets| && Diff(bets[i], actual) == r.minDifference ==> ToWinner(bets[i]) in r.winners)
      && (forall w :: w in r.winners ==> exists i :: 0 <= i < |bets| && Diff(bets[i], actual) == r.minDifference && ToWinner(bets[i]) == w)
      && (jackpot >= 0 ==> 0 <= r.payoutPerWinner && r.payoutPerWinner * |r.winners| <= jackpot)
  {
    WinnersSpec(bets, actual);
    var w := Closest(bets, actual, MinDiff(bets, actual));
    var r := WinnerReport(bets, jackpot, actual, day).value;
    assert r.winners == w && r.minDifference == MinDiff(bets, actual);
    forall x | x in r.winners
      ensures exists i :: 0 <= i < |bets| && Diff(bets[i], actual) == r.minDifference && ToWinner(bets[i]) == x
    {
      var j :| 0 <= j < |r.winners| && r.winners[j] == x;
      ClosestSound(bets, actual, r.minDifference, j);
    }
    if jackpot >= 0 {
      PayoutSplit(jackpot, |w|);
    }
  }

  /** What `!confirm-winner` ends with. */
  datatype ConfirmOutcome = ConfirmUsage | ConfirmBadTime | NoBets | NoJackpot | Confirmed(data: WinnerData, accuracy: Duration)

  /** Where a 💰 reaction ends. `Raised` is the `AttributeError` of reading
      `.bot` on a missing member, outside the handler's `try`. */
  datatype DonationOutcome = NotADonation | Raised | SelfDonation | DonorTooPoor | Donated(recipient: Gambler)

  /** The reacted-to message, when `get_channel` and `fetch_message` found it:
      whether the bot wrote it, whether it has embeds, and the first embed's
      footer text (empty without a footer). */
  datatype ReactedMessage = ReactedMessage(byThisBot: bool, hasEmbeds: bool, footer: string)

  const MoneyBag := "\U{1F4B0}"

  /** The decision of the donation handler, given the donor's balance.
      Failures inside the `try` (no channel, no message, a footer that does
      not parse) end quietly as `NotADonation`. */
  function Donation(p: Notifications.Payload, msg: Option<ReactedMessage>, donorBalance: int): (r: DonationOutcome)
    ensures r.Donated? <==>
      && p.emoji == MoneyBag && p.member.Some? && !p.member.value.isBot
      && msg.Some? && msg.value.byThisBot && msg.value.hasEmbeds
      && FooterUser(msg.value.footer).Some? && FooterUser(msg.value.footer).value != p.user
      && donorBalance >= DonationAmount
    ensures r.Donated? ==> Some(r.recipient) == FooterUser(msg.value.footer) && r.recipient != p.user
    ensures r == Raised <==> p.emoji == MoneyBag && p.member.None?
  {
    if p.emoji != MoneyBag then NotADonation
    else if p.member.None? then Raised
    else if p.member.value.isBot then NotADonation
    else if msg.None? || !msg.value.byThisBot || !msg.value.hasEmbeds then NotADonation
    else match FooterUser(msg.value.footer)
      case None => NotADonation
      case Some(recipient) =>
        if recipient == p.user then SelfDonation
        else if donorBalance < DonationAmount then DonorTooPoor
        else Donated(recipient)
  }

  /** The two balance writes of a donation. */
  function Transfer(b: Balances, guild: GuildId, donor: Gambler, recipient: Gambler): (r: Balances)
    ensures r.Keys == b.Keys + {(guild, donor), (guild, recipient)}
  {
    var afterDonor := b[(guild, donor) := BalanceOf(b, guild, donor) - DonationAmount];
    afterDonor[(guild, recipient) := BalanceOf(afterDonor, guild, recipient) + DonationAmount]
  }

  /** Between two different users the donor pays 5, the recipient gets 5,
      their sum is kept, and no other balance moves. */
  lemma TransferSpec(b: Balances, guild: GuildId, donor: Gambler, recipient: Gambler)
    requires donor != recipient
    ensures var r := Transfer(b, guild, donor, recipient);
      && BalanceOf(r, guild, donor) == BalanceOf(b, guild, donor) - DonationAmount
      && BalanceOf(r, guild, recipient) == BalanceOf(b, guild, recipient) + DonationAmount
      && BalanceOf(r, guild, donor) + BalanceOf(r, guild, recipient) == BalanceOf(b, guild, donor) + BalanceOf(b, guild, recipient)
      && (forall g: GuildId, u: Gambler :: (g, u) != (guild, donor) && (g, u) != (guild, recipient) ==> BalanceOf(r, g, u) == BalanceOf(b, g, u))
  {
  }

  /** A donor with at least 5 cannot be overdrawn by a donation. */
  lemma TransferSolvent(b: Balances, j: map<GuildId, Jackpot>, guild: GuildId, donor: Gambler, recipient: Gambler)
    requires Solvent(b, j) && donor != recipient && BalanceOf(b, guild, donor) >= DonationAmount
    ensures Solvent(Transfer(b, guild, donor, recipient), j)
  {
  }

  /** What `!broke` ends with. */
  datatype BrokeOutcome = BrokeWrongChannel | NotBroke(balance: int) | DonationRequest(footer: string)

  // ---------------------------------------------------------------------
  // The store and the cog
  // ---------------------------------------------------------------------

  /** The gambling tables. */
  class GamblingStore {
    var balances: Balances
    var jackpots: map<GuildId, Jackpot>
    var bets: seq<BetRow>
    var gamblingChannels: SettingsTable

    constructor (balances: Balances, jackpots: map<GuildId, Jackpot>, bets: seq<BetRow>, channels: SettingsTable)
      ensures this.balances == balances && this.jackpots == jackpots && this.bets == bets
      ensures gamblingChannels == channels
    {
      this.balances := balances;
      this.jackpots := jackpots;
      this.bets := bets;
      gamblingChannels := channels;
    }
  }

  class GamblingCog {
    const db: GamblingStore

    constructor (db: GamblingStore)
      ensures this.db == db
    {
      this.db := db;
    }

    predicate Valid()
      reads db
    {
      Solvent(db.balances, db.jackpots)
    }

    /** `is_gambling_channel` against the stored gambling channel. */
    predicate InGamblingChannel(guild: GuildId, here: ChannelId)
      reads db
    {
      IsGamblingChannel(ChannelOf(db.gamblingChannels, guild), here)
    }

    /** `!bet`: the checks in order, then the stake moves from the balance to
        the pot and the bet is stored. When storing fails the balance is put
        back but the pot keeps the stake. */
    method BetCommand(guild: GuildId, author: UserId, displayName: string, here: ChannelId,
                      amount: Option<int>, predicted: Option<string>, parsed: Option<int>,
                      now: int, placedAt: int, day: Day, saveOk: bool)
      returns (err: Option<BetError>)
      modifies db
      ensures err == ValidateBet(old(InGamblingChannel(guild, here)), amount, predicted,
                                 BalanceOf(old(db.balances), guild, author), parsed, now)
      ensures err.Some? ==> unchanged(db)
      ensures err.None? ==>
        var balance := BalanceOf(old(db.balances), guild, author);
        && db.jackpots == AddToJackpot(old(db.jackpots), guild, amount.value)
        && db.gamblingChannels == old(db.gamblingChannels)
        && (saveOk ==> db.balances == old(db.balances)[(guild, author) := balance - amount.value])
        && (saveOk ==> db.bets == old(db.bets) + [BetRow(guild, author, displayName, amount.value, parsed.value, placedAt, day, true)])
        && (!saveOk ==> db.balances == old(db.balances)[(guild, author) := balance] && db.bets == old(db.bets))
      ensures old(Valid()) ==> Valid()
    {
      if !InGamblingChannel(guild, here) {
        return Some(WrongChannel);
      }
      if amount.None? || predicted.None? {
        return Some(Usage);
      }
      if amount.value <= 0 {
        return Some(NonPositiveAmount);
      }
      var current := BalanceOf(db.balances, guild, author);
      if amount.value > current {
        return Some(Insufficient(current));
      }
      if parsed.None? {
        return Some(BadTime);
      }
      if parsed.value <= now {
        return Some(PastTime);
      }
      err := None;
      db.balances := db.balances[(guild, author) := current - amount.value];
      db.jackpots := AddToJackpot(db.jackpots, guild, amount.value);
      if saveOk {
        db.bets := db.bets + [BetRow(guild, author, displayName, amount.value, parsed.value, placedAt, day, true)];
      } else {
        db.balances := db.balances[(guild, author) := current];
      }
    }

    /** `calculate_and_announce_winners`: one pass over the day's bets keeps
        the smallest distance so far and the bets at that distance. */
    method CalculateAndAnnounceWinners(guild: GuildId, actual: int, day: Day) returns (r: Option<WinnerData>)
      ensures r == WinnerReport(ActiveBets(db.bets, guild, day), JackpotOf(db.jackpots, guild).pot, actual, day)
    {
      var bets := ActiveBets(db.bets, guild, day);
      if bets == [] {
        return None;
      }
      var closest: seq<Winner> := [];
      var best: nat := 0;
      for i := 0 to |bets|
        invariant i > 0 ==> best == MinDiff(bets[..i], actual) && closest == Closest(bets[..i], actual, best)
      {
        var d := Diff(bets[i], actual);
        assert bets[..i + 1][..i] == bets[..i];
        if i == 0 || d < best {
          if i > 0 {
            MinDiffSpec(bets[..i], actual);
            ClosestNoneNearer(bets[..i], actual, d);
          }
          best := d;
          closest := [ToWinner(bets[i])];
        } else if d == best {
          closest := closest + [ToWinner(bets[i])];
        }
      }
      assert bets[..|bets|] == bets;
      var jackpot := JackpotOf(db.jackpots, guild).pot;
      var payout := if |closest| > 0 then jackpot / |closest| else 0;
      r := Some(WinnerData(closest, jackpot, payout, best, actual, day));
    }

    /** `process_confirmed_winners`: credit each winner the query resolves,
        then empty the pot (multiplier 1, reset day set) and retire the day's
        bets. */
    method ProcessConfirmedWinners(guild: GuildId, data: WinnerData)
      modifies db
      ensures db.balances == PayWinners(old(db.balances), old(db.bets), guild, data.winners, data.payoutPerWinner, data.bettingDay)
      ensures db.jackpots == old(db.jackpots)[guild := Jackpot(0, 1, Some(data.bettingDay))]
      ensures db.bets == Deactivate(old(db.bets), guild, data.bettingDay)
      ensures db.gamblingChannels == old(db.gamblingChannels)
    {
      for i := 0 to |data.winners|
        invariant db.balances == PayWinners(old(db.balances), db.bets, guild, data.winners[..i], data.payoutPerWinner, data.bettingDay)
        invariant db.bets == old(db.bets) && db.jackpots == old(db.jackpots)
        invariant db.gamblingChannels == old(db.gamblingChannels)
      {
        assert data.winners[..i + 1][..i] == data.winners[..i];
        var w := data.winners[i];
        var found := FirstPaid(db.bets, guild, w, data.bettingDay);
        if found.Some? {
          var user := db.bets[found.value].userId;
          var current := BalanceOf(db.balances, guild, user);
          db.balances := db.balances[(guild, user) := current + data.payoutPerWinner];
        }
      }
      assert data.winners[..|data.winners|] == data.winners;
      db.jackpots := db.jackpots[guild := Jackpot(0, 1, Some(data.bettingDay))];
      db.bets := Deactivate(db.bets, guild, data.bettingDay);
    }

    /** `!confirm-winner`: the guards in order (no time given, a time that
        does not parse, no bets today, an empty pot), then the payout. A
        confirmed round leaves the day without active bets, so confirming
        again finds none. */
    method ConfirmWinnerCommand(guild: GuildId, actualTime: Option<string>, parsed: Option<int>, day: Day)
      returns (outcome: ConfirmOutcome)
      modifies db
      ensures outcome == ConfirmUsage <==> actualTime.None?
      ensures outcome == ConfirmBadTime <==> actualTime.Some? && parsed.None?
      ensures outcome == NoBets <==> actualTime.Some? && parsed.Some? && ActiveBets(old(db.bets), guild, day) == []
      ensures outcome == NoJackpot <==>
        && actualTime.Some? && parsed.Some? && ActiveBets(old(db.bets), guild, day) != []
        && JackpotOf(old(db.jackpots), guild).pot == 0
      ensures !outcome.Confirmed? ==> unchanged(db)
      ensures outcome.Confirmed? ==>
        var report := WinnerReport(ActiveBets(old(db.bets), guild, day), JackpotOf(old(db.jackpots), guild).pot, parsed.value, day);
        && report == Some(outcome.data)
        && outcome.accuracy == TimeDiff(outcome.data.minDifference)
        && db.balances == PayWinners(old(db.balances), old(db.bets), guild, outcome.data.winners, outcome.data.payoutPerWinner, day)
        && JackpotOf(db.jackpots, guild) == Jackpot(0, 1, Some(day))
        && (forall g :: g != guild ==> JackpotOf(db.jackpots, g) == JackpotOf(old(db.jackpots), g))
        && db.bets == Deactivate(old(db.bets), guild, day)
        && ActiveBets(db.bets, guild, day) == []
        && db.gamblingChannels == old(db.gamblingChannels)
      ensures old(Valid()) ==> Valid()
    {
      if actualTime.None? {
        return ConfirmUsage;
      }
      if parsed.None? {
        return ConfirmBadTime;
      }
      var data := CalculateAndAnnounceWinners(guild, parsed.value, day);
      if data.None? {
        return NoBets;
      }
      if data.value.jackpotAmount == 0 {
        return NoJackpot;
      }
      ghost var pot := data.value.jackpotAmount;
      ghost var balances := db.balances;
      if Valid() {
        assert pot >= 0;
        WinnerReportSpec(ActiveBets(db.bets, guild, day), pot, parsed.value, day);
        PayWinnersSolvent(db.balances, db.jackpots, db.bets, guild, data.value.winners, data.value.payoutPerWinner, day);
      }
      DeactivateSpec(db.bets, guild, day, guild, day);
      ProcessConfirmedWinners(guild, data.value);
      outcome := Confirmed(data.value, TimeDiff(data.value.minDifference));
    }

    /** `on_raw_reaction_add` of the gambling cog: a 💰 on the bot's own
        request moves 5 epochs from the reacting user to the user named in
        the footer, unless that is the same user or the donor has less than
        5. */
    method OnRawReactionAdd(p: Notifications.Payload, msg: Option<ReactedMessage>) returns (outcome: DonationOutcome)
      modifies db
      ensures outcome == Donation(p, msg, BalanceOf(old(db.balances), p.guild, p.user))
      ensures outcome.Donated? ==> db.balances == Transfer(old(db.balances), p.guild, p.user, outcome.recipient)
      ensures !outcome.Donated? ==> db.balances == old(db.balances)
      ensures db.jackpots == old(db.jackpots) && db.bets == old(db.bets) && db.gamblingChannels == old(db.gamblingChannels)
      ensures old(Valid()) ==> Valid()
    {
      if p.emoji != MoneyBag {
        return NotADonation;
      }
      if p.member.None? {
        return Raised;
      }
      if p.member.value.isBot {
        return NotADonation;
      }
      if msg.None? || !msg.value.byThisBot || !msg.value.hasEmbeds {
        return NotADonation;
      }
      var recipient := FooterUser(msg.value.footer);
      if recipient.None? {
        return NotADonation;
      }
      if recipient.value == p.user {
        return SelfDonation;
      }
      var donorBalance := BalanceOf(db.balances, p.guild, p.user);
      if donorBalance < DonationAmount {
        return DonorTooPoor;
      }
      Donate(p.guild, p.user, recipient.value);
      outcome := Donated(recipient.value);
    }

    /** The two balance writes of a donation: the donor pays first, then the
        recipient's balance is read and credited. */
    method Donate(guild: GuildId, donor: Gambler, recipient: Gambler)
      requires donor != recipient && BalanceOf(db.balances, guild, donor) >= DonationAmount
      modifies db
      ensures db.balances == Transfer(old(db.balances), guild, donor, recipient)
      ensures db.jackpots == old(db.jackpots) && db.bets == old(db.bets) && db.gamblingChannels == old(db.gamblingChannels)
      ensures old(Valid()) ==> Valid()
    {
      if Valid() {
        TransferSolvent(db.balances, db.jackpots, guild, donor, recipient);
      }
      ghost var expected := Transfer(db.balances, guild, donor, recipient);
      var donorBalance := BalanceOf(db.balances, guild, donor);
      db.balances := db.balances[(guild, donor) := donorBalance - DonationAmount];
      var brokeBalance := BalanceOf(db.balances, guild, recipient);
      db.balances := db.balances[(guild, recipient) := brokeBalance + DonationAmount];
      assert db.balances == expected;
    }

    /** `!broke`: only a user with nothing left may ask, and the request
        names them so that donations reach them. */
    method BrokeCommand(guild: GuildId, author: UserId, here: ChannelId) returns (r: BrokeOutcome)
      ensures r == BrokeWrongChannel <==> !InGamblingChannel(guild, here)
      ensures r.NotBroke? <==> InGamblingChannel(guild, here) && BalanceOf(db.balances, guild, author) > 0
      ensures r.NotBroke? ==> r.balance == BalanceOf(db.balances, guild, author)
      ensures r.DonationRequest? ==> FooterUser(r.footer) == Some(author as Gambler)
    {
      if !InGamblingChannel(guild, here) {
        return BrokeWrongChannel;
      }
      var balance := BalanceOf(db.balances, guild, author);
      var request := BrokeRequest(balance, author);
      if request.None? {
        return NotBroke(balance);
      }
      r := DonationRequest(request.value);
    }
  }
}
