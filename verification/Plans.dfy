/** Plans: what a payment grants an account, how a tier moves, what ends a plan, and which rail
    belongs to whom. */
module Plans {
  import opened Wrappers
  import opened Names
  import opened Naturals
  import opened Slices
  import Calendar

  /** TOKU a month, tier by tier. */
  const TIERS: seq<nat> := [700_000, 1_500_000, 4_000_000]
  const TOP: nat := 2

  const USAGE_KEEP_MS := 120 * Calendar.DAY_MS
  const DISPUTE_KEEP_MS := 180 * Calendar.DAY_MS

  datatype Drawn = NoneDrawn | SomeDrawn | MostDrawn | AllDrawn
  datatype PeriodUsage = PeriodUsage(period: nat, tier: nat, drawn: Drawn)

  datatype Plan = Plan(
    tier: nat, yearly: bool, rail: string, start: nat, until: nat, active: bool, checkedAt: nat, disputedAt: nat,
    usage: seq<PeriodUsage>, grantedTier: nat, grantedPeriod: nat)

  const NO_PLAN := Plan(0, false, "", 0, 0, false, 0, 0, [], 0, 0)

  /** An allowance row; `period` is the start of its period in seconds, as stored. */
  datatype Row = Row(period: nat, ends: nat, granted: nat, left: nat)

  /** What the book holds on one account. */
  datatype Account = Account(plan: Option<Plan>, row: Option<Row>)

  function Step(tier: nat): nat {
    if tier <= TOP then tier else TOP
  }

  /** The period of a row as it is read back: cut to 32 bits, zero for no row. */
  function Current(row: Option<Row>): nat {
    if row.Some? then row.value.period % U32 else 0
  }

  /** What an upgrade adds for the rest of a period. */
  function Prorata(step: nat, remaining: nat, total: nat): nat {
    if total == 0 then 0 else step * Min(remaining, total) / total
  }

  function PaidAt(p: Plan, now: nat): bool {
    p.active && p.until > now
  }

  function DrawnStep(granted: nat, left: nat): Drawn {
    var drawn := Monus(granted, left);
    if drawn == 0 then NoneDrawn
    else if drawn * 2 < granted then SomeDrawn
    else if drawn * 100 < granted * 95 then MostDrawn
    else AllDrawn
  }

  /** The ending period is noted, once. */
  function Closed(p: Plan, row: Option<Row>): (r: Plan)
    ensures r == p.(usage := r.usage)
  {
    if row.None? then p
    else
      var period := Current(row);
      if period == 0 || row.value.granted == 0 || (exists u :: u in p.usage && u.period == period) then p
      else p.(usage := p.usage + [PeriodUsage(period, p.tier, DrawnStep(row.value.granted, row.value.left))])
  }

  function Kept(usage: seq<PeriodUsage>, now: nat): seq<PeriodUsage> {
    if usage == [] then []
    else
      var u := usage[0];
      (if Monus(now, u.period * 1000) < USAGE_KEEP_MS then [u] else []) + Kept(usage[1..], now)
  }

  function Pruned(p: Plan, now: nat): (r: Plan)
    ensures r == p.(usage := r.usage)
  {
    if p.disputedAt > 0 && Monus(now, p.disputedAt) < DISPUTE_KEEP_MS then p else p.(usage := Kept(p.usage, now))
  }

  /** The tier a period's allowance stands at: recorded for it, or else the one given. */
  function GrantedBase(p: Plan, tier: nat, start: nat): nat {
    if p.grantedPeriod == PeriodKey(start) then p.grantedTier else tier
  }

  function Recorded(p: Plan, start: nat, tier: nat): Plan {
    p.(grantedTier := tier, grantedPeriod := PeriodKey(start))
  }

  function Opened(start: nat, ends: nat, tier: nat): Option<Row> {
    Some(Row(start / 1000, ends, TIERS[Step(tier)], TIERS[Step(tier)]))
  }

  function Added(row: Option<Row>, extra: nat): Option<Row> {
    if row.None? then row else Some(row.value.(granted := row.value.granted + extra, left := row.value.left + extra))
  }

  function Lapsed(row: Option<Row>): Option<Row> {
    if row.None? then row else Some(row.value.(granted := 0, left := 0))
  }

  /** A slice is a proper interval of the paid period; it starts a whole number of months, fewer
      than twelve, after the paid period did. */
  lemma SliceIsProper(start: nat, until: nat, yearly: bool, now: nat)
    requires SliceAt(start, until, yearly, now).Some?
    ensures var (s, e) := SliceAt(start, until, yearly, now).value;
            start <= s < e <= until && (!yearly ==> s == start) && now < until
    ensures exists k: nat :: k < 12 && SliceAt(start, until, yearly, now).value.0 == Calendar.AddMonths(start, k)
  {
    hide Calendar.AddMonths, SliceMonth;
    Calendar.NoMonths(start);
    var s := SliceAt(start, until, yearly, now).value.0;
    if !yearly {
      assert s == Calendar.AddMonths(start, 0);
    } else {
      var k := SliceMonth(start, now);
      assert s == Calendar.AddMonths(start, k);
      SliceMonthIsRight(start, now, k);
      if k > 0 { Calendar.AddMonthsIncreases(start, 0, k); }
      Calendar.AddMonthsIncreases(start, k, k + 1);
    }
  }

  /** What the tier above the granted one adds now. */
  function UpgradeExtra(base: nat, tier: nat, s: nat, e: nat, now: nat): nat
    requires s < e
  {
    Prorata(Monus(TIERS[Step(tier)], TIERS[Step(base)]), Monus(e, now), e - s)
  }

  /** The plan as a rail reports it; a report without a start keeps the one known. */
  function Reported(before: Plan, tier: nat, yearly: bool, rail: string, now: nat, start: nat, until: nat): Plan {
    before.(tier := tier, yearly := yearly, rail := rail, active := until > now, checkedAt := now, until := until,
            start := if start > 0 then start else before.start)
  }

  /** What a reported plan hands out: a new period's allowance, or the step up inside a known one,
      or nothing. Whether an allowance began comes last. */
  function HandedOut(p: Plan, row: Option<Row>, known: bool, oldTier: nat, now: nat): (Plan, Option<Row>, bool) {
    match SliceAt(p.start, p.until, p.yearly, now)
    case None => (p, row, false)
    case Some((s, e)) =>
      SliceIsProper(p.start, p.until, p.yearly, now);
      var base := GrantedBase(p, oldTier, s);
      if PeriodKey(s) > Current(row) then (Recorded(Closed(p, row), s, p.tier), Opened(s, e, p.tier), true)
      else if known && p.tier > base then (Recorded(p, s, p.tier), Added(row, UpgradeExtra(base, p.tier, s, e, now)), false)
      else (p, row, false)
  }

  /** A rail reports a paid period. Whether an allowance was handed out comes second. */
  function Renewed(a: Account, tier: nat, yearly: bool, rail: string, now: nat, start: nat, until: nat): (Account, bool) {
    var before := if a.plan.Some? then a.plan.value else NO_PLAN;
    var p := Reported(before, Step(tier), yearly, rail, now, start, until);
    var (q, row, granted) := HandedOut(p, a.row, before.rail == rail, before.tier, now);
    (Account(Some(q), row), granted)
  }

  /** The plan moves to another tier; what that adds now comes second. */
  function TierChanged(a: Account, tier0: nat, now: nat): (Account, nat) {
    if a.plan.None? then (a, 0)
    else
      var tier, before := Step(tier0), a.plan.value;
      var p := before.(tier := tier);
      match SliceAt(p.start, p.until, p.yearly, now)
      case None => (a.(plan := Some(p)), 0)
      case Some((s, e)) =>
        SliceIsProper(p.start, p.until, p.yearly, now);
        var base := GrantedBase(before, before.tier, s);
        if tier > base then
          var extra := UpgradeExtra(base, tier, s, e, now);
          (Account(Some(Recorded(p, s, tier)), Added(a.row, extra)), extra)
        else (a.(plan := Some(p)), 0)
  }

  /** The beat on one account; whether an allowance began or lapsed comes second. */
  function Rolled(a: Account, now: nat): (Account, bool) {
    if a.plan.None? then (a, false)
    else
      var pruned := Pruned(a.plan.value, now);
      var p := pruned.(active := PaidAt(pruned, now));
      match if PaidAt(p, now) then SliceAt(p.start, p.until, p.yearly, now) else None
      case Some((s, e)) =>
        if PeriodKey(s) > Current(a.row) then (Account(Some(Closed(p, a.row)), Opened(s, e, p.tier)), true)
        else (a.(plan := Some(p)), false)
      case None =>
        if a.row.Some? && a.row.value.granted > 0 && now >= a.row.value.ends
        then (Account(Some(Closed(p, a.row)), Lapsed(a.row)), true)
        else (a.(plan := Some(p)), false)
  }

  /** The money went back: the plan ends now and its allowance lapses. */
  function Ended(a: Account, disputed: bool, now: nat): Account {
    if a.plan.None? then a
    else
      var p := a.plan.value.(active := false, until := Min(a.plan.value.until, now), checkedAt := now);
      var q := Closed(p, a.row);
      Account(Some(if disputed then q.(disputedAt := now) else q), Lapsed(a.row))
  }

  // ---- the tables ------------------------------------------------------------------------------

  datatype Book = Book(
    plans: map<Acct, Plan>, allowance: map<Acct, Row>, rails: map<string, Acct>, minted: map<(string, nat), string>)

  const EMPTY := Book(map[], map[], map[], map[])

  function Find<K, V>(m: map<K, V>, k: K): Option<V> {
    if k in m then Some(m[k]) else None
  }

  function At(b: Book, key: Acct): Account {
    Account(Find(b.plans, key), Find(b.allowance, key))
  }

  function Placed(m: map<Acct, Row>, key: Acct, row: Option<Row>): map<Acct, Row> {
    if row.Some? then m[key := row.value] else m
  }

  function With(b: Book, key: Acct, a: Account): Book {
    b.(plans := if a.plan.Some? then b.plans[key := a.plan.value] else b.plans,
       allowance := Placed(b.allowance, key, a.row))
  }

  predicate IsNote(rail: string) {
    |rail| >= 5 && rail[..5] == "note:"
  }

  const PLAN_ELSEWHERE := "this subscription is already on another tokumai account"
  const PLAN_ALREADY :=
    "this account already has a plan — change it instead of taking out a second one, or cancel it and subscribe again once its month has ended"
  const PLAN_MINTED := "this payment was turned into a note and pays as one; it cannot also pay a plan directly"

  function AttachRefusal(b: Book, key: Acct, rail: string, now: nat): Option<string> {
    if rail in b.rails && b.rails[rail] != key then Some(PLAN_ELSEWHERE)
    else if key in b.plans && b.plans[key].rail != "" && b.plans[key].rail != rail && PaidAt(b.plans[key], now)
    then Some(PLAN_ALREADY)
    else None
  }

  /** Some month that the payment covers was minted into a note. */
  predicate AnyMinted(b: Book, rail: string, epochs: seq<nat>) {
    exists i :: 0 <= i < |epochs| && (rail, epochs[i]) in b.minted
  }

  function Renew(b: Book, key: Acct, tier: nat, yearly: bool, rail: string, now: nat, start: nat, until: nat)
    : Result<(Book, bool), string> {
    var refusal := AttachRefusal(b, key, rail, now);
    if refusal.Some? then Err(refusal.value)
    else if !IsNote(rail) && AnyMinted(b, rail, EpochsCovered(start, until, yearly)) then Err(PLAN_MINTED)
    else if until <= now && key !in b.plans then Ok((b, false))
    else
      var (a, granted) := Renewed(At(b, key), tier, yearly, rail, now, start, until);
      Ok((With(b, key, a).(rails := b.rails[rail := key]), granted))
  }

  /** The plan that a rail pays, if its owner is still on that rail. */
  function OnRail(b: Book, rail: string): Option<Acct> {
    if rail in b.rails && b.rails[rail] in b.plans && b.plans[b.rails[rail]].rail == rail then Some(b.rails[rail]) else None
  }

  function Revoke(b: Book, rail: string, disputed: bool, now: nat): (Book, bool) {
    match OnRail(b, rail)
    case None => (b, false)
    case Some(key) => (With(b, key, Ended(At(b, key), disputed, now)), true)
  }

  /** A row as it arrives on another account: its period as read back, what was drawn taken off. */
  function Carried(row: Row): Row {
    Row(row.period % U32, row.ends, row.granted, Monus(row.granted, Monus(row.granted, row.left)))
  }

  function Move(b: Book, rail: string, to: Acct, now: nat): (Book, bool) {
    if rail !in b.rails || b.rails[rail] == to then (b, false)
    else if to in b.plans && b.plans[to].rail != rail && PaidAt(b.plans[to], now) then (b, false)
    else
      match OnRail(b, rail)
      case None => (b, false)
      case Some(from) =>
        var row := At(b, from).row;
        var allowance :=
          if row.None? then b.allowance else b.allowance[to := Carried(row.value)][from := Lapsed(row).value];
        (Book((b.plans - {from})[to := b.plans[from]], allowance, b.rails[rail := to], b.minted), true)
  }

  /** May this payment's month become the note with this fingerprint? True when it is a new one. */
  function MintAdmission(b: Book, rail: string, epoch: nat, fingerprint: string): Result<(Book, bool), string> {
    if rail in b.rails then Err("this payment already pays a plan on an account directly; it cannot also become a note")
    else if (rail, epoch) in b.minted then
      if b.minted[(rail, epoch)] != fingerprint then Err("a note for this month was already minted for this payment")
      else Ok((b, false))
    else Ok((b.(minted := b.minted[(rail, epoch) := fingerprint]), true))
  }
}
