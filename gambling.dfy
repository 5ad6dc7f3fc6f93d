/** The rules of the launch-time betting game of `cogs/gambling.py`, as pure
    functions: where the commands may be used, when a bet is accepted, who
    is closest to the actual launch time, how the jackpot is split, how the
    accuracy is worded, and how a donation request names its beneficiary.
    The store and the commands that change it are in `GamblingCog`. */
module Gambling {
  import opened Wrappers
  import opened Text
  import opened Db

  /** `get_current_day`: the `YYYY-MM-DD` betting day (Central Time). */
  type Day = string

  /** A user id as the game keys balances by. Ids read back from a donation
      footer are whatever integer the footer holds, so this is `int`. */
  type Gambler = int

  const StartingBalance := 100
  const DonationAmount := 5

  // ---------------------------------------------------------------------
  // Channel restriction
  // ---------------------------------------------------------------------

  /** `is_gambling_channel`: with no gambling channel configured every
      channel is allowed; otherwise only the configured one. */
  function IsGamblingChannel(configured: Option<ChannelId>, here: ChannelId): (r: bool)
    ensures configured.None? ==> r
    ensures configured.Some? ==> (r <==> here == configured.value)
  {
    match configured
    case None => true
    case Some(c) => here == c
  }

  // ---------------------------------------------------------------------
  // Bet validation
  // ---------------------------------------------------------------------

  /** Why `!bet` refused, in the order the checks run. */
  datatype BetError = WrongChannel | Usage | NonPositiveAmount | Insufficient(balance: int) | BadTime | PastTime

  /** The checks of `bet_command` before anything is stored. `parsed` is what
      `parse_time_input` made of the time text and `now` the current time,
      both in whole seconds. `None` means the bet is accepted. */
  function ValidateBet(inChannel: bool, amount: Option<int>, predicted: Option<string>,
                       balance: int, parsed: Option<int>, now: int): (r: Option<BetError>)
    ensures r.None? <==>
      inChannel && amount.Some? && predicted.Some? && 0 < amount.value <= balance && parsed.Some? && parsed.value > now
    ensures r == Some(WrongChannel) <==> !inChannel
    ensures r == Some(Usage) <==> inChannel && (amount.None? || predicted.None?)
    ensures r == Some(NonPositiveAmount) <==> inChannel && amount.Some? && predicted.Some? && amount.value <= 0
    ensures r.Some? && r.value.Insufficient? <==>
      inChannel && amount.Some? && predicted.Some? && 0 < amount.value && amount.value > balance
    ensures r.Some? && r.value.Insufficient? ==> r.value.balance == balance
    ensures r == Some(BadTime) <==>
      inChannel && amount.Some? && predicted.Some? && 0 < amount.value <= balance && parsed.None?
    ensures r == Some(PastTime) <==>
      inChannel && amount.Some? && predicted.Some? && 0 < amount.value <= balance && parsed.Some? && parsed.value <= now
  {
    if !inChannel then Some(WrongChannel)
    else if amount.None? || predicted.None? then Some(Usage)
    else if amount.value <= 0 then Some(NonPositiveAmount)
    else if amount.value > balance then Some(Insufficient(balance))
    else if parsed.None? then Some(BadTime)
    else if parsed.value <= now then Some(PastTime)
    else None
  }

  /** An accepted bet never overdraws: the balance left is between 0 and the
      balance before, exclusive of the latter. */
  lemma AcceptedBetKeepsBalanceNonNegative(inChannel: bool, amount: Option<int>, predicted: Option<string>,
                                           balance: int, parsed: Option<int>, now: int)
    requires ValidateBet(inChannel, amount, predicted, balance, parsed, now).None?
    ensures 0 <= balance - amount.value < balance
  {
  }

  // ---------------------------------------------------------------------
  // Winners
  // ---------------------------------------------------------------------

  /** A row of `get_active_gambling_bets_for_day` (its formatted time text,
      which only the listing shows, is not kept). */
  datatype Bet = Bet(userName: string, amount: int, predictedTimestamp: int)

  /** An entry of `closest_bets`. */
  datatype Winner = Winner(userName: string, amount: int, predictedTimestamp: int)

  function ToWinner(b: Bet): Winner {
    Winner(b.userName, b.amount, b.predictedTimestamp)
  }

  /** `abs(predicted_timestamp - actual_launch_time)`. */
  function Diff(b: Bet, actual: int): nat {
    if b.predictedTimestamp >= actual then b.predictedTimestamp - actual else actual - b.predictedTimestamp
  }

  /** The smallest distance to the actual time over a non-empty list. */
  function MinDiff(bets: seq<Bet>, actual: int): (r: nat)
    requires |bets| > 0
    ensures forall i :: 0 <= i < |bets| ==> r <= Diff(bets[i], actual)
  {
    var n := |bets| - 1;
    if n == 0 then Diff(bets[0], actual)
    else
      var m := MinDiff(bets[..n], actual);
      if Diff(bets[n], actual) < m then Diff(bets[n], actual) else m
  }

  lemma {:induction false} MinDiffSpec(bets: seq<Bet>, actual: int)
    requires |bets| > 0
    ensures forall i :: 0 <= i < |bets| ==> MinDiff(bets, actual) <= Diff(bets[i], actual)
    ensures exists i :: 0 <= i < |bets| && Diff(bets[i], actual) == MinDiff(bets, actual)
  {
    var n := |bets| - 1;
    if n > 0 {
      MinDiffSpec(bets[..n], actual);
      assert forall i :: 0 <= i < n ==> bets[..n][i] == bets[i];
      if Diff(bets[n], actual) >= MinDiff(bets[..n], actual) {
        var i :| 0 <= i < n && Diff(bets[..n][i], actual) == MinDiff(bets[..n], actual);
        assert Diff(bets[i], actual) == MinDiff(bets, actual);
      } else {
        assert Diff(bets[n], actual) == MinDiff(bets, actual);
      }
    } else {
      assert Diff(bets[0], actual) == MinDiff(bets, actual);
    }
  }

  /** The bets at distance `m`, as winners, in the order of the list. */
  function Closest(bets: seq<Bet>, actual: int, m: nat): (r: seq<Winner>)
    ensures |r| <= |bets|
  {
    if bets == [] then []
    else
      var n := |bets| - 1;
      Closest(bets[..n], actual, m) + if Diff(bets[n], actual) == m then [ToWinner(bets[n])] else []
  }

  lemma {:induction false} ClosestNoneNearer(bets: seq<Bet>, actual: int, m: nat)
    requires forall i :: 0 <= i < |bets| ==> Diff(bets[i], actual) > m
    ensures Closest(bets, actual, m) == []
  {
    if bets != [] {
      var n := |bets| - 1;
      ClosestNoneNearer(bets[..n], actual, m);
    }
  }

  /** Every entry of `Closest` comes from a bet at distance `m`. */
  lemma {:induction false} ClosestSound(bets: seq<Bet>, actual: int, m: nat, j: nat)
    requires j < |Closest(bets, actual, m)|
    ensures exists i :: 0 <= i < |bets| && Diff(bets[i], actual) == m && ToWinner(bets[i]) == Closest(bets, actual, m)[j]
  {
    var n := |bets| - 1;
    var front := Closest(bets[..n], actual, m);
    var w := Closest(bets, actual, m);
    assert w == front + if Diff(bets[n], actual) == m then [ToWinner(bets[n])] else [];
    if j < |front| {
      ClosestSound(bets[..n], actual, m, j);
      var i :| 0 <= i < n && Diff(bets[..n][i], actual) == m && ToWinner(bets[..n][i]) == front[j];
      assert bets[i] == bets[..n][i] && w[j] == front[j];
    } else {
      assert Diff(bets[n], actual) == m && w[j] == ToWinner(bets[n]);
    }
  }

  /** Every bet at distance `m` appears in `Closest`. */
  lemma {:induction false} ClosestComplete(bets: seq<Bet>, actual: int, m: nat, i: nat)
    requires i < |bets| && Diff(bets[i], actual) == m
    ensures ToWinner(bets[i]) in Closest(bets, actual, m)
  {
    var n := |bets| - 1;
    if i < n {
      ClosestComplete(bets[..n], actual, m, i);
      assert bets[..n][i] == bets[i];
    }
  }

  /** `Closest` keeps the list's order and multiplicity: on a concatenation
      it is the winners of the first part followed by those of the second. */
  lemma {:induction false} ClosestAppend(a: seq<Bet>, b: seq<Bet>, actual: int, m: nat)
    ensures Closest(a + b, actual, m) == Closest(a, actual, m) + Closest(b, actual, m)
  {
    if b != [] {
      var n := |b| - 1;
      ClosestAppend(a, b[..n], actual, m);
      assert (a + b)[..|a + b| - 1] == a + b[..n];
    } else {
      assert a + b == a;
    }
  }

  /** A single bet is a winner entry exactly when it is at distance `m`. */
  lemma ClosestOne(b: Bet, actual: int, m: nat)
    ensures Closest([b], actual, m) == if Diff(b, actual) == m then [ToWinner(b)] else []
  {
    assert [b][..0] == [];
  }

  /** The winners of a non-empty list: there is at least one; each is a bet
      at the minimal distance; every bet at the minimal distance is one; and
      no bet is nearer. */
  lemma WinnersSpec(bets: seq<Bet>, actual: int)
    requires |bets| > 0
    ensures var m := MinDiff(bets, actual);
      var w := Closest(bets, actual, m);
      && |w| > 0
      && (forall j :: 0 <= j < |w| ==>
            exists i :: 0 <= i < |bets| && Diff(bets[i], actual) == m && ToWinner(bets[i]) == w[j])
      && (forall i :: 0 <= i < |bets| && Diff(bets[i], actual) == m ==> ToWinner(bets[i]) in w)
      && (forall i :: 0 <= i < |bets| ==> m <= Diff(bets[i], actual))
  {
    var m := MinDiff(bets, actual);
    MinDiffSpec(bets, actual);
    forall j | 0 <= j < |Closest(bets, actual, m)|
      ensures exists i :: 0 <= i < |bets| && Diff(bets[i], actual) == m && ToWinner(bets[i]) == Closest(bets, actual, m)[j]
    {
      ClosestSound(bets, actual, m, j);
    }
    forall i | 0 <= i < |bets| && Diff(bets[i], actual) == m
      ensures ToWinner(bets[i]) in Closest(bets, actual, m)
    {
      ClosestComplete(bets, actual, m, i);
    }
    var i :| 0 <= i < |bets| && Diff(bets[i], actual) == m;
    ClosestComplete(bets, actual, m, i);
  }

  // ---------------------------------------------------------------------
  // Payout
  // ---------------------------------------------------------------------

  /** `jackpot_amount // len(closest_bets) if closest_bets else 0`. Python's
      `//` floors; for a positive divisor Dafny's `/` agrees. */
  function PayoutPerWinner(jackpot: int, winners: nat): int {
    if winners > 0 then jackpot / winners else 0
  }

  /** Splitting a non-negative jackpot pays out at most the jackpot, and what
      stays unpaid is less than one share per winner. */
  lemma PayoutSplit(jackpot: nat, winners: nat)
    requires winners > 0
    ensures var p := PayoutPerWinner(jackpot, winners);
      && 0 <= p
      && p * winners <= jackpot
      && jackpot - p * winners < winners
  {
  }

  // ---------------------------------------------------------------------
  // Accuracy text
  // ---------------------------------------------------------------------

  /** The accuracy of the winning guess, as the announcement words it. */
  datatype Duration = Seconds(s: nat) | MinutesSeconds(m: nat, s: nat) | HoursMinutes(h: nat, m: nat)

  /** Under a minute in seconds; under an hour in minutes and seconds;
      otherwise in hours and minutes, dropping the leftover seconds. */
  function TimeDiff(d: nat): (r: Duration)
    ensures r.Seconds? <==> d < 60
    ensures r.Seconds? ==> r.s == d
    ensures r.MinutesSeconds? <==> 60 <= d < 3600
    ensures r.MinutesSeconds? ==> 1 <= r.m < 60 && r.s < 60 && r.m * 60 + r.s == d
    ensures r.HoursMinutes? <==> 3600 <= d
    ensures r.HoursMinutes? ==> 1 <= r.h && r.m < 60 && r.h * 3600 + r.m * 60 <= d < r.h * 3600 + r.m * 60 + 60
  {
    if d < 60 then Seconds(d)
    else if d < 3600 then MinutesSeconds(d / 60, d % 60)
    else HoursMinutes(d / 3600, (d % 3600) / 60)
  }

  /** The accuracy as the announcement words it: each count in decimal
      followed by its unit, the smallest unit shown last. */
  function DurationText(r: Duration): (t: string)
    ensures r.Seconds? ==> IsCount(t, r.s, " seconds")
    ensures r.MinutesSeconds? ==> IsTwoCounts(t, r.m, " minutes, ", r.s, " seconds")
    ensures r.HoursMinutes? ==> IsTwoCounts(t, r.h, " hours, ", r.m, " minutes")
  {
    match r
    case Seconds(s) => Counted(s, " seconds")
    case MinutesSeconds(m, s) => TwoCounts(m, " minutes, ", s, " seconds")
    case HoursMinutes(h, m) => TwoCounts(h, " hours, ", m, " minutes")
  }

  /** `t` is the decimal text of `n` followed by `unit`. */
  predicate IsCount(t: string, n: nat, unit: string) {
    && |t| == |NatToDecimal(n)| + |unit|
    && t[..|t| - |unit|] == NatToDecimal(n)
    && t[|t| - |unit|..] == unit
  }

  /** `t` is a first count with `sep`, then a second count with `unit`. */
  predicate IsTwoCounts(t: string, first: nat, sep: string, second: nat, unit: string) {
    var k := |NatToDecimal(first)| + |sep|;
    && k <= |t|
    && IsCount(t[..k], first, sep)
    && IsCount(t[k..], second, unit)
  }

  /** `f"{first}{sep}{second}{unit}"`. */
  function TwoCounts(first: nat, sep: string, second: nat, unit: string): (r: string)
    ensures IsTwoCounts(r, first, sep, second, unit)
  {
    var a, b := Counted(first, sep), Counted(second, unit);
    var r := a + b;
    assert r[..|a|] == a && r[|a|..] == b;
    r
  }

  /** Every count in the accuracy text reads back as the number it shows:
      the text before the unit, and around the separator, parses to it. */
  lemma DurationTextReadsBack(r: Duration)
    ensures var t := DurationText(r);
      match r
      case Seconds(s) => ParseInt(t[..|t| - 8]) == Some(s)
      case MinutesSeconds(m, s) =>
        var k := |NatToDecimal(m)| + 10;
        ParseInt(t[..k][..k - 10]) == Some(m) && ParseInt(t[k..][..|t| - k - 8]) == Some(s)
      case HoursMinutes(h, m) =>
        var k := |NatToDecimal(h)| + 8;
        ParseInt(t[..k][..k - 8]) == Some(h) && ParseInt(t[k..][..|t| - k - 8]) == Some(m)
  {
    match r
    case Seconds(s) => DecimalParses(s);
    case MinutesSeconds(m, s) => DecimalParses(m); DecimalParses(s);
    case HoursMinutes(h, m) => DecimalParses(h); DecimalParses(m);
  }

  // ---------------------------------------------------------------------
  // Donation requests
  // ---------------------------------------------------------------------

  /** The footer text before the user id, kept in short pieces so that facts
      about its characters stay small. */
  const BrokeFooterLead := "Each \U{1F4B0} " + "reaction " + "donates 5 " + "epochs. " + "Be generous! | "
  const UserIdMarker := "UserID:"
  const UserIdTag := "UserID: "

  /** The footer `!broke` puts under its request. */
  function BrokeFooter(user: UserId): string {
    BrokeFooterLead + UserIdTag + NatToDecimal(user)
  }

  /** `int(footer_text.split("UserID: ")[1])` behind the `"UserID:" in
      footer_text` test: `None` when the footer is not a request, when the
      split has no second piece, or when that piece is not an integer (the
      handler's `except` swallows both errors). */
  function FooterUser(footer: string): (r: Option<Gambler>)
    ensures r.Some? ==> Contains(footer, UserIdMarker)
    ensures r.Some? ==> |Split(footer, UserIdTag)| >= 2 && ParseInt(Split(footer, UserIdTag)[1]) == r
  {
    if !Contains(footer, UserIdMarker) then None
    else
      var parts := Split(footer, UserIdTag);
      if |parts| < 2 then None else ParseInt(parts[1])
  }

  lemma LeadLacksU()
    ensures Lacks(BrokeFooterLead, 'U')
  {
    var a, b, c, d, e := "Each \U{1F4B0} ", "reaction ", "donates 5 ", "epochs. ", "Be generous! | ";
    assert Lacks(a, 'U') && Lacks(b, 'U') && Lacks(c, 'U') && Lacks(d, 'U') && Lacks(e, 'U');
    LacksConcat(a, b, 'U');
    LacksConcat(a + b, c, 'U');
    LacksConcat(a + b + c, d, 'U');
    LacksConcat(a + b + c + d, e, 'U');
  }

  /** After a lead without 'U', the first "UserID: " is the one that follows
      the lead, and the "UserID:" test passes. */
  lemma TagAfterLead(lead: string, rest: string)
    requires Lacks(lead, 'U')
    ensures var s := lead + UserIdTag + rest;
      && Find(s, UserIdTag) == Some(|lead|)
      && Contains(s, UserIdMarker)
      && s[|lead| + |UserIdTag|..] == rest
  {
    var s := lead + UserIdTag + rest;
    var k := |lead|;
    assert forall j :: 0 <= j < k ==> s[j] == lead[j];
    assert s[k..k + |UserIdTag|] == UserIdTag;
    assert s[k..k + |UserIdMarker|] == UserIdMarker;
    OccursThenContains(s, UserIdMarker, k);
    FindSkipsPrefix(s, UserIdTag, k);
  }

  /** A string without 'U' splits at "UserID: " into itself. */
  lemma SplitWithoutTag(t: string)
    requires Lacks(t, 'U')
    ensures Split(t, UserIdTag) == [t]
  {
    FindSkipsPrefix(t, UserIdTag, |t|);
  }

  /** A lead without 'U', the tag, and a rest without 'U' split into the lead
      and the rest. */
  lemma FooterSplit(lead: string, rest: string)
    requires Lacks(lead, 'U') && Lacks(rest, 'U')
    ensures var s := lead + UserIdTag + rest;
      && Contains(s, UserIdMarker)
      && Split(s, UserIdTag) == [lead, rest]
  {
    var s := lead + UserIdTag + rest;
    TagAfterLead(lead, rest);
    SplitWithoutTag(rest);
    assert s[..|lead|] == lead;
  }

  /** A footer made of a lead without 'U', the tag and a decimal number reads
      back as that number. */
  lemma FooterUserOfDigits(lead: string, user: nat)
    requires Lacks(lead, 'U')
    ensures FooterUser(lead + UserIdTag + NatToDecimal(user)) == Some(user)
  {
    var digits := NatToDecimal(user);
    assert Lacks(digits, 'U') by {
      assert forall j :: 0 <= j < |digits| ==> IsDigit(digits[j]);
    }
    var s := lead + UserIdTag + digits;
    FooterSplit(lead, digits);
    assert FooterUser(s) == ParseInt(digits);
    ParseIntRoundTrip(user);
  }

  /** The donation handler reads back exactly the user who asked: the footer
      `!broke` writes names its author. */
  lemma BrokeFooterRoundTrip(user: UserId)
    ensures FooterUser(BrokeFooter(user)) == Some(user)
  {
    LeadLacksU();
    FooterUserOfDigits(BrokeFooterLead, user);
  }

  /** `!broke`: a positive balance is refused with the balance; otherwise the
      request goes out with the author in its footer. */
  function BrokeRequest(balance: int, author: UserId): (r: Option<string>)
    ensures r.Some? <==> balance <= 0
    ensures r.Some? ==> FooterUser(r.value) == Some(author)
  {
    BrokeFooterRoundTrip(author);
    if balance > 0 then None else Some(BrokeFooter(author))
  }
}
