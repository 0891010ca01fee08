/** The plan tables in memory, and the operations that change them in place. */
module PlanBook {
  import opened Wrappers
  import opened Names
  import opened Naturals
  import opened Slices
  import opened Plans

  class Rows {
    var plans: map<Acct, Plan>
    var allowance: map<Acct, Row>
    var rails: map<string, Acct>
    var minted: map<(string, nat), string>

    constructor ()
      ensures State() == EMPTY
    {
      plans, allowance, rails, minted := map[], map[], map[], map[];
    }

    function State(): Book
      reads this
    {
      Book(plans, allowance, rails, minted)
    }

    method AllowanceSet(key: Acct, start: nat, ends: nat, toku: nat)
      modifies this
      ensures State() == old(State()).(allowance :=
                old(allowance)[key := Row(start / 1000, ends, toku, toku)])
    {
      allowance := allowance[key := Row(start / 1000, ends, toku, toku)];
    }

    method AllowanceAdd(key: Acct, extra: nat)
      modifies this
      ensures State() == old(State()).(allowance := Placed(old(allowance), key, Added(Find(old(allowance), key), extra)))
    {
      if key in allowance {
        var row := allowance[key];
        allowance := allowance[key := row.(granted := row.granted + extra, left := row.left + extra)];
      }
    }

    method AllowanceTake(key: Acct, amount: nat)
      modifies this
      requires key in allowance
      ensures State() == old(State()).(allowance :=
                old(allowance)[key := old(allowance)[key].(left := Monus(old(allowance)[key].left, amount))])
    {
      var row := allowance[key];
      allowance := allowance[key := row.(left := if row.left <= amount then 0 else row.left - amount)];
    }

    method AllowanceLapse(key: Acct)
      modifies this
      ensures State() == old(State()).(allowance := Placed(old(allowance), key, Lapsed(Find(old(allowance), key))))
    {
      if key in allowance {
        allowance := allowance[key := allowance[key].(granted := 0, left := 0)];
      }
    }

    /** A plan starts, is confirmed, or renews. */
    method SubscribeOrRenew(key: Acct, tier0: nat, yearly: bool, rail: string, now: nat, start: nat, until: nat)
      returns (r: Result<bool, string>)
      modifies this
      ensures match Renew(old(State()), key, tier0, yearly, rail, now, start, until)
              case Err(why) => r == Err(why) && State() == old(State())
              case Ok((b, granted)) => r == Ok(granted) && State() == b
    {
      hide EpochsCovered, Renewed;
      var refusal := AttachRefusal(State(), key, rail, now);
      if refusal.Some? {
        return Err(refusal.value);
      }
      if !IsNote(rail) {
        var epochs := ComputeEpochs(start, until, yearly);
        var i := 0;
        while i < |epochs|
          invariant 0 <= i <= |epochs|
          invariant forall j :: 0 <= j < i ==> (rail, epochs[j]) !in minted
          invariant State() == old(State())
        {
          if (rail, epochs[i]) in minted {
            return Err(PLAN_MINTED);
          }
          i := i + 1;
        }
      }
      if until <= now && key !in plans {
        return Ok(false);
      }
      var granted := RenewPlan(key, tier0, yearly, rail, now, start, until);
      return Ok(granted);
    }

    /** The renewal itself, once nothing refuses it. */
    method RenewPlan(key: Acct, tier0: nat, yearly: bool, rail: string, now: nat, start: nat, until: nat) returns (granted: bool)
      modifies this
      ensures var (a, g) := Renewed(At(old(State()), key), tier0, yearly, rail, now, start, until);
              granted == g && State() == With(old(State()), key, a).(rails := old(rails)[rail := key])
    {
      hide HandedOut;
      rails := rails[rail := key];
      var p := if key in plans then plans[key] else NO_PLAN;
      var wasKnown := p.rail == rail;
      var oldTier := p.tier;
      p := p.(tier := Step(tier0), yearly := yearly, rail := rail, active := until > now, checkedAt := now, until := until);
      if start > 0 {
        p := p.(start := start);
      }
      p, granted := HandOut(key, p, wasKnown, oldTier, now);
      plans := plans[key := p];
    }

    method HandOut(key: Acct, p: Plan, wasKnown: bool, oldTier: nat, now: nat) returns (q: Plan, granted: bool)
      modifies this
      ensures var (r, row, g) := HandedOut(p, Find(old(allowance), key), wasKnown, oldTier, now);
              q == r && granted == g && State() == old(State()).(allowance := Placed(old(allowance), key, row))
    {
      hide SliceAt, Closed, UpgradeExtra, PeriodKey, Current, Recorded, GrantedBase, Added;
      SameRow(State(), key);
      q := p;
      var slice := ComputeSlice(p.start, p.until, p.yearly, now);
      granted := slice.Some? && PeriodKey(slice.value.0) > Current(Find(allowance, key));
      if slice.Some? {
        var (s, e) := slice.value;
        SliceIsProper(p.start, p.until, p.yearly, now);
        if granted {
          q := Closed(p, Find(allowance, key));
          AllowanceSet(key, s, e, TIERS[Step(p.tier)]);
          q := Recorded(q, s, p.tier);
        } else if wasKnown {
          var base := GrantedBase(p, oldTier, s);
          if p.tier > base {
            AllowanceAdd(key, UpgradeExtra(base, p.tier, s, e, now));
            q := Recorded(p, s, p.tier);
          }
        }
      }
    }

    /** The renewal check's way in: whichever account holds the rail. */
    method RenewByRail(rail: string, tier0: nat, yearly: bool, now: nat, start: nat, until: nat) returns (r: Result<bool, string>)
      modifies this
      ensures rail !in old(rails) ==> r == Ok(false) && State() == old(State())
      ensures rail in old(rails) ==>
                match Renew(old(State()), old(rails)[rail], tier0, yearly, rail, now, start, until)
                case Err(why) => r == Err(why) && State() == old(State())
                case Ok((b, granted)) => r == Ok(granted) && State() == b
    {
      hide Renew;
      if rail !in rails {
        return Ok(false);
      }
      r := SubscribeOrRenew(rails[rail], tier0, yearly, rail, now, start, until);
    }

    /** The plan moves to another tier. */
    method ChangeTier(key: Acct, tier0: nat, now: nat) returns (extra: nat)
      modifies this
      ensures var (a, x) := TierChanged(At(old(State()), key), tier0, now);
              extra == x && State() == With(old(State()), key, a)
    {
      hide SliceAt, UpgradeExtra;
      SameRow(State(), key);
      if key !in plans {
        return 0;
      }
      var p := plans[key];
      var tier := Step(tier0);
      var slice := ComputeSlice(p.start, p.until, p.yearly, now);
      var base := if slice.Some? then GrantedBase(p, p.tier, slice.value.0) else p.tier;
      p := p.(tier := tier);
      extra := 0;
      if slice.Some? && tier > base {
        var (s, e) := slice.value;
        SliceIsProper(p.start, p.until, p.yearly, now);
        extra := UpgradeExtra(base, tier, s, e, now);
        AllowanceAdd(key, extra);
        p := Recorded(p, s, tier);
      }
      plans := plans[key := p];
    }

    /** The beat on one account. */
    method RollOne(key: Acct, now: nat) returns (changed: bool)
      requires key in plans
      modifies this
      ensures var (a, c) := Rolled(At(old(State()), key), now);
              changed == c && State() == With(old(State()), key, a)
    {
      hide SliceAt, Closed, Pruned, PeriodKey, Current;
      SameRow(State(), key);
      var p := Pruned(plans[key], now);
      if p.active && p.until <= now {
        p := p.(active := false);
      }
      var slice := None;
      if PaidAt(p, now) {
        slice := ComputeSlice(p.start, p.until, p.yearly, now);
      }
      var row := Find(allowance, key);
      changed := false;
      if slice.Some? {
        if PeriodKey(slice.value.0) > Current(row) {
          p := Closed(p, row);
          AllowanceSet(key, slice.value.0, slice.value.1, TIERS[Step(p.tier)]);
          changed := true;
        }
      } else if row.Some? && row.value.granted > 0 && now >= row.value.ends {
        p := Closed(p, row);
        AllowanceLapse(key);
        changed := true;
      }
      plans := plans[key := p];
    }

    /** The beat: every plan, in whatever order the table gives them. */
    method Roll(now: nat) returns (changed: nat)
      modifies this
      ensures forall key :: key in old(plans) ==> At(State(), key) == Rolled(At(old(State()), key), now).0
      ensures forall key :: key !in old(plans) ==> At(State(), key) == At(old(State()), key)
      ensures rails == old(rails) && minted == old(minted)
      ensures changed == |set key | key in old(plans) && Rolled(At(old(State()), key), now).1|
    {
      hide Rolled, Rolling, Changes, With;
      ghost var was := State();
      var todo := plans.Keys;
      NoneRolled(was, now);
      changed := 0;
      while todo != {}
        invariant todo <= plans.Keys && Rolling(was, State(), todo, now)
        invariant changed == |Changes(was, todo, now)|
        decreases |todo|
      {
        var key :| key in todo;
        ghost var before := State();
        var c := RollOne(key, now);
        OneRolled(was, before, todo, key, now);
        if c {
          changed := changed + 1;
        }
        todo := todo - {key};
      }
      AllRolled(was, State(), now);
    }

    /** The money for the plan on `rail` went back. */
    method MoneyBack(rail: string, disputed: bool, now: nat) returns (ended: bool)
      modifies this
      ensures var (b, x) := Revoke(old(State()), rail, disputed, now); ended == x && State() == b
    {
      hide Closed;
      if rail !in rails || rails[rail] !in plans || plans[rails[rail]].rail != rail {
        return false;
      }
      var key := rails[rail];
      var p := plans[key].(active := false, until := Min(plans[key].until, now), checkedAt := now);
      p := Closed(p, Find(allowance, key));
      AllowanceLapse(key);
      if disputed {
        p := p.(disputedAt := now);
      }
      plans := plans[key := p];
      return true;
    }

    /** The period moves as it stands, never a fresh one. */
    method CarryRow(from: Acct, to: Acct)
      requires from != to
      modifies this
      ensures State() == old(State()).(allowance :=
                if from !in old(allowance) then old(allowance)
                else old(allowance)[to := Carried(old(allowance)[from])][from := Lapsed(Find(old(allowance), from)).value])
    {
      if from in allowance {
        var row := allowance[from];
        AllowanceSet(to, row.period % U32 * 1000, row.ends, row.granted);
        var used := Monus(row.granted, row.left);
        if used > 0 {
          AllowanceTake(to, used);
        }
        AllowanceLapse(from);
      }
    }

    /** The plan on `rail` goes to another account, as it stands. */
    method MovePlan(rail: string, to: Acct, now: nat) returns (moved: bool)
      modifies this
      ensures var (b, x) := Move(old(State()), rail, to, now); moved == x && State() == b
    {
      hide Carried, PaidAt;
      if rail !in rails || rails[rail] == to {
        return false;
      }
      var from := rails[rail];
      if to in plans && plans[to].rail != rail && PaidAt(plans[to], now) {
        return false;
      }
      if from !in plans || plans[from].rail != rail {
        return false;
      }
      var plan := plans[from];
      CarryRow(from, to);
      plans := (plans - {from})[to := plan];
      rails := rails[rail := to];
      return true;
    }

    /** May this payment's month become the note with this fingerprint? */
    method AdmitMint(rail: string, epoch: nat, fingerprint: string) returns (r: Result<bool, string>)
      modifies this
      ensures match MintAdmission(old(State()), rail, epoch, fingerprint)
              case Err(why) => r == Err(why) && State() == old(State())
              case Ok((b, isNew)) => r == Ok(isNew) && State() == b
    {
      if rail in rails {
        return Err("this payment already pays a plan on an account directly; it cannot also become a note");
      }
      if (rail, epoch) in minted {
        if minted[(rail, epoch)] != fingerprint {
          return Err("a note for this month was already minted for this payment");
        }
        return Ok(false);
      }
      minted := minted[(rail, epoch) := fingerprint];
      return Ok(true);
    }
  }

  /** A row that is not changed is put back as it is. */
  lemma SameRow(b: Book, key: Acct)
    ensures Placed(b.allowance, key, Find(b.allowance, key)) == b.allowance
    ensures key !in b.plans ==> With(b, key, At(b, key)) == b
  {
  }

  /** The beat has been to every account but those still to do. */
  ghost predicate Rolling(was: Book, t: Book, todo: set<Acct>, now: nat) {
    && t.plans.Keys == was.plans.Keys && t.rails == was.rails && t.minted == was.minted
    && (forall key :: key in was.plans && key !in todo ==> At(t, key) == Rolled(At(was, key), now).0)
    && (forall key :: key !in was.plans || key in todo ==> At(t, key) == At(was, key))
  }

  /** The accounts that the beat changed so far. */
  function Changes(was: Book, todo: set<Acct>, now: nat): set<Acct> {
    set key | key in was.plans && key !in todo && Rolled(At(was, key), now).1
  }

  lemma NoneRolled(was: Book, now: nat)
    ensures Rolling(was, was, was.plans.Keys, now) && Changes(was, was.plans.Keys, now) == {}
  {
  }

  lemma OneRolled(was: Book, t: Book, todo: set<Acct>, key: Acct, now: nat)
    requires Rolling(was, t, todo, now) && key in todo && todo <= t.plans.Keys
    ensures var u := With(t, key, Rolled(At(t, key), now).0);
            Rolling(was, u, todo - {key}, now) && todo - {key} <= u.plans.Keys
    ensures |Changes(was, todo - {key}, now)| == |Changes(was, todo, now)| + if Rolled(At(t, key), now).1 then 1 else 0
  {
    hide Rolled, With, Changes;
    RolledKeepsPlan(At(t, key), now);
    WithIsLocal(t, key, Rolled(At(t, key), now).0);
    OneChange(was, todo, key, now);
  }

  lemma OneChange(was: Book, todo: set<Acct>, key: Acct, now: nat)
    requires key in todo && key in was.plans
    ensures |Changes(was, todo - {key}, now)| == |Changes(was, todo, now)| + if Rolled(At(was, key), now).1 then 1 else 0
  {
    hide Rolled, At;
    assert Changes(was, todo - {key}, now) == Changes(was, todo, now) + if Rolled(At(was, key), now).1 then {key} else {};
  }

  lemma AllRolled(was: Book, t: Book, now: nat)
    requires Rolling(was, t, {}, now)
    ensures forall key :: key in was.plans ==> At(t, key) == Rolled(At(was, key), now).0
    ensures forall key :: key !in was.plans ==> At(t, key) == At(was, key)
    ensures t.rails == was.rails && t.minted == was.minted
    ensures Changes(was, {}, now) == set key | key in was.plans && Rolled(At(was, key), now).1
  {
    hide Rolled;
  }

  lemma RolledKeepsPlan(a: Account, now: nat)
    requires a.plan.Some?
    ensures Rolled(a, now).0.plan.Some? && (a.row.Some? ==> Rolled(a, now).0.row.Some?)
  {
    hide SliceAt, Closed, Pruned;
  }

  lemma WithIsLocal(b: Book, key: Acct, a: Account)
    requires (a.plan.None? ==> key !in b.plans) && (a.row.None? ==> key !in b.allowance)
    ensures At(With(b, key, a), key) == a
    ensures forall other :: other != key ==> At(With(b, key, a), other) == At(b, other)
    ensures With(b, key, a).rails == b.rails && With(b, key, a).minted == b.minted
    ensures key in b.plans ==> With(b, key, a).plans.Keys == b.plans.Keys
  {
  }
}
