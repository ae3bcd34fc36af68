/**
 * Module parameters of x/alliance/keeper/params.go: a single optional
 * record in the store, read back as the zero record when absent, and
 * written only when both durations are positive.
 */
module ParamsKeeper {
  import opened AllianceTypes

  /** Durations and times in nanoseconds. */
  datatype Params = Params(rewardDelayTime: int, takeRateClaimInterval: int, lastTakeRateClaimTime: int)

  /** What GetParams yields when nothing is stored: every field zero. */
  const ZeroParams: Params := Params(0, 0, ZeroTime)

  /** types.ValidatePositiveDuration */
  function ValidatePositiveDuration(d: int): (o: Outcome)
    ensures o.Pass? <==> d > 0
    ensures o.Fail? ==> o.error == NonPositiveDuration
  {
    if d <= 0 then Fail(NonPositiveDuration) else Pass
  }

  /** The records SetParams accepts. */
  predicate ValidParams(p: Params) {
    p.rewardDelayTime > 0 && p.takeRateClaimInterval > 0
  }

  /** GetParams on a stored value: the zero record when absent. */
  function ReadParams(stored: Option<Params>): (p: Params)
    ensures stored.None? ==> p == ZeroParams
    ensures stored.Some? ==> p == stored.value
  {
    if stored.Some? then stored.value else ZeroParams
  }

  /** SetParams on a stored value: both durations are validated, in order, before the write. */
  function WriteParams(stored: Option<Params>, p: Params): (r: (Outcome, Option<Params>))
    ensures r.0.Pass? <==> ValidParams(p)
    ensures r.0.Pass? ==> r.1 == Some(p)
    ensures r.0.Fail? ==> r.0.error == NonPositiveDuration && r.1 == stored
  {
    var o1 := ValidatePositiveDuration(p.rewardDelayTime);
    if o1.Fail? then (o1, stored)
    else
      var o2 := ValidatePositiveDuration(p.takeRateClaimInterval);
      if o2.Fail? then (o2, stored)
      else (Pass, Some(p))
  }

  /** SetLastRewardClaimTime on a stored value: read, change the clock, write back through SetParams. */
  function WriteLastClaimTime(stored: Option<Params>, t: int): (r: (Outcome, Option<Params>))
    ensures r.0.Pass? <==> ValidParams(ReadParams(stored))
    ensures r.0.Pass? ==> r.1 == Some(ReadParams(stored).(lastTakeRateClaimTime := t))
    ensures r.0.Fail? ==> r.1 == stored
  {
    WriteParams(stored, ReadParams(stored).(lastTakeRateClaimTime := t))
  }

  /** A store whose params were never set cannot record a claim time: the zero durations fail validation. */
  lemma LastClaimTimeNeedsParams(t: int)
    ensures WriteLastClaimTime(None, t) == (Fail(NonPositiveDuration), None)
  {
  }

  /** Writing params and reading them back gives the record written. */
  lemma WriteThenRead(stored: Option<Params>, p: Params)
    requires ValidParams(p)
    ensures ReadParams(WriteParams(stored, p).1) == p
  {
  }

  /** Recording a claim time keeps the validated durations and changes only the clock. */
  lemma LastClaimTimeKeepsDurations(stored: Option<Params>, t: int)
    requires stored.Some? && ValidParams(stored.value)
    ensures var r := WriteLastClaimTime(stored, t);
            r.0 == Pass && ReadParams(r.1).lastTakeRateClaimTime == t &&
            ReadParams(r.1).rewardDelayTime == stored.value.rewardDelayTime &&
            ReadParams(r.1).takeRateClaimInterval == stored.value.takeRateClaimInterval
  {
  }

  /** The params record in the module store. */
  class ParamStore {
    var stored: Option<Params>

    /** Only validated records ever reach the store. */
    ghost predicate Valid()
      reads this
    {
      stored.Some? ==> ValidParams(stored.value)
    }

    constructor ()
      ensures stored == None && Valid()
    {
      stored := None;
    }

    function GetParams(): (p: Params)
      reads this
      ensures p == ReadParams(stored)
      ensures Valid() ==> (stored.Some? <==> ValidParams(p))
    {
      ReadParams(stored)
    }

    function RewardDelayTime(): (d: int)
      reads this
      ensures d == GetParams().rewardDelayTime
      ensures Valid() ==> (stored.Some? <==> d > 0)
    {
      GetParams().rewardDelayTime
    }

    function RewardClaimInterval(): (d: int)
      reads this
      ensures d == GetParams().takeRateClaimInterval
      ensures Valid() ==> (stored.Some? <==> d > 0)
    {
      GetParams().takeRateClaimInterval
    }

    function LastRewardClaimTime(): (t: int)
      reads this
      ensures t == GetParams().lastTakeRateClaimTime
      ensures stored.None? ==> t == ZeroTime
    {
      GetParams().lastTakeRateClaimTime
    }

    method SetParams(p: Params) returns (o: Outcome)
      modifies this
      ensures (o, stored) == WriteParams(old(stored), p)
      ensures o.Pass? <==> ValidParams(p)
      ensures old(Valid()) ==> Valid()
    {
      var o1 := ValidatePositiveDuration(p.rewardDelayTime);
      if o1.Fail? {
        return o1;
      }
      var o2 := ValidatePositiveDuration(p.takeRateClaimInterval);
      if o2.Fail? {
        return o2;
      }
      stored := Some(p);
      o := Pass;
    }

    method SetLastRewardClaimTime(t: int) returns (o: Outcome)
      modifies this
      ensures (o, stored) == WriteLastClaimTime(old(stored), t)
      ensures old(Valid()) ==> Valid()
      ensures o.Pass? ==> LastRewardClaimTime() == t
    {
      var p := GetParams();
      o := SetParams(p.(lastTakeRateClaimTime := t));
    }
  }
}
