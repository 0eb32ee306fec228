/** When an order may still be cancelled. Times are local wall-clock instants counted in
    microseconds (the resolution of Python's `datetime`), dates are day numbers, and the
    calendar day and hour of an instant are derived from it. */
module CancelPolicy {
  import opened Wrappers
  import opened Text

  const MicrosPerSecond: int := 1_000_000
  const MicrosPerHour: int := 3600 * MicrosPerSecond
  const MicrosPerDay: int := 24 * MicrosPerHour

  /** The cancellation window of an immediate or takeaway order: 15 minutes. */
  const WindowSeconds: int := 900

  /** The hour of the delivery day from which a pre-order can no longer be cancelled. */
  const PreorderCutoffHour: int := 6

  /** `now.date()` as a day number. */
  function DayOf(now: int): int {
    now / MicrosPerDay
  }

  /** `now.hour` */
  function HourOf(now: int): (h: int)
    ensures 0 <= h < 24
  {
    (now % MicrosPerDay) / MicrosPerHour
  }

  /** The outcome of the rule; every refusal carries the reason the bot reports. */
  datatype Verdict =
    | Eligible
    | TimeExceeded
    | DeliveryDayAfterCutoff
    | DatePassed
    | DateError
    | NoRule

  function Reason(v: Verdict): string {
    match v
    case Eligible => ""
    case TimeExceeded => "Cancellation time (15 mins) exceeded."
    case DeliveryDayAfterCutoff => "Cannot cancel on Delivery Day after 6:00 AM."
    case DatePassed => "Order date passed."
    case DateError => "Date error."
    case NoRule => ""
  }

  /** Orders whose type contains "Takeaway" or is exactly "Immediate" follow the 15-minute
      rule. */
  predicate IsImmediate(orderType: string) {
    Contains(orderType, "Takeaway") || orderType == "Immediate"
  }

  /** The eligibility decision of the cancel command. `created` is the order's creation
      instant, or None for a stored time text that parses in neither accepted format, in
      which case the creation time falls back to now. `delivery` is the pre-order's delivery
      day, or None when it is missing or does not parse. A type that is neither immediate
      nor "Pre-order" has no rule and is never cancellable. */
  function Eligibility(orderType: string, created: Option<int>, delivery: Option<int>, now: int): (v: Verdict)
    ensures IsImmediate(orderType) ==> v == Eligible || v == TimeExceeded
    ensures v == TimeExceeded ==> IsImmediate(orderType)
    ensures v == DeliveryDayAfterCutoff || v == DatePassed || v == DateError ==> orderType == "Pre-order"
    ensures v == NoRule <==> !IsImmediate(orderType) && orderType != "Pre-order"
  {
    if IsImmediate(orderType) then
      var elapsed := now - created.GetOr(now);
      if elapsed < WindowSeconds * MicrosPerSecond then Eligible else TimeExceeded
    else if orderType == "Pre-order" then
      match delivery
      case None => DateError
      case Some(d) =>
        if DayOf(now) == d then
          if HourOf(now) < PreorderCutoffHour then Eligible else DeliveryDayAfterCutoff
        else if DayOf(now) < d then Eligible
        else DatePassed
    else NoRule
  }

  /** Immediate and takeaway orders: cancellable exactly while fewer than 900 seconds have
      passed since the order was created, and otherwise refused for the time limit. */
  lemma ImmediateRule(orderType: string, created: int, delivery: Option<int>, now: int)
    requires IsImmediate(orderType)
    ensures Eligibility(orderType, Some(created), delivery, now) == Eligible
      <==> now - created < 900 * 1_000_000
    ensures Eligibility(orderType, Some(created), delivery, now) != Eligible ==>
      Eligibility(orderType, Some(created), delivery, now) == TimeExceeded
  {
  }

  /** The boundary of the window: 899.999999 seconds after creation is still in time, 900
      seconds is not. */
  lemma ImmediateBoundary(created: int)
    ensures Eligibility("Immediate", Some(created), None, created + 899_999_999) == Eligible
    ensures Eligibility("Immediate", Some(created), None, created + 900_000_000) == TimeExceeded
    ensures Eligibility("Takeaway", Some(created), None, created + 900_000_000) == TimeExceeded
  {
    assert Contains("Takeaway", "Takeaway") by { assert OccursAt("Takeaway", "Takeaway", 0); }
  }

  /** A creation time that cannot be read counts as now, so such an order is always in
      time. */
  lemma UnreadableTimeInWindow(orderType: string, delivery: Option<int>, now: int)
    requires IsImmediate(orderType)
    ensures Eligibility(orderType, None, delivery, now) == Eligible
  {
  }

  /** Pre-orders: cancellable exactly when today is before the delivery day, or is the
      delivery day and the hour is before 6; a pre-order without a readable date is refused
      with a date error. */
  lemma PreorderRule(created: Option<int>, d: int, now: int)
    ensures Eligibility("Pre-order", created, Some(d), now) == Eligible
      <==> DayOf(now) < d || (DayOf(now) == d && HourOf(now) < 6)
    ensures DayOf(now) > d ==> Eligibility("Pre-order", created, Some(d), now) == DatePassed
    ensures DayOf(now) == d && HourOf(now) >= 6 ==>
      Eligibility("Pre-order", created, Some(d), now) == DeliveryDayAfterCutoff
    ensures Eligibility("Pre-order", created, None, now) == DateError
  {
    PreorderNotImmediate();
  }

  /** "Pre-order" does not contain "Takeaway", so it is governed by the date rule. */
  lemma PreorderNotImmediate()
    ensures !IsImmediate("Pre-order")
  {
    var h := "Pre-order";
    forall i ensures !OccursAt(h, "Takeaway", i) {
      if 0 <= i <= 1 { assert h[i..i + 8][0] != 'T'; }
    }
  }

  /** The cut-off on the delivery day is 06:00 sharp: 05:59:59.999999 is still in time,
      06:00 is not. */
  lemma PreorderBoundary(d: int)
    ensures Eligibility("Pre-order", None, Some(d), d * MicrosPerDay + 6 * MicrosPerHour - 1) == Eligible
    ensures Eligibility("Pre-order", None, Some(d), d * MicrosPerDay + 6 * MicrosPerHour)
      == DeliveryDayAfterCutoff
  {
    PreorderNotImmediate();
    var early := d * MicrosPerDay + 6 * MicrosPerHour - 1;
    var late := d * MicrosPerDay + 6 * MicrosPerHour;
    DayAndHour(d, 6 * MicrosPerHour - 1);
    DayAndHour(d, 6 * MicrosPerHour);
  }

  /** An instant given as a day and an offset into it has that day and the hour of the
      offset. */
  lemma DayAndHour(d: int, offset: int)
    requires 0 <= offset < MicrosPerDay
    ensures DayOf(d * MicrosPerDay + offset) == d
    ensures HourOf(d * MicrosPerDay + offset) == offset / MicrosPerHour
  {
    var t := d * MicrosPerDay + offset;
    assert t == MicrosPerDay * d + offset;
    assert t / MicrosPerDay == d;
    assert t % MicrosPerDay == offset;
  }

  /** The three order types the bot and the staff surface save are each governed by a rule:
      none of them is refused without a reason. */
  lemma SavedTypesHaveRules(created: Option<int>, delivery: Option<int>, now: int)
    ensures Eligibility("Immediate", created, delivery, now) != NoRule
    ensures Eligibility("Takeaway", created, delivery, now) != NoRule
    ensures Eligibility("Pre-order", created, delivery, now) != NoRule
  {
    PreorderNotImmediate();
  }

  /** Every refusal under a rule has a non-empty reason. */
  lemma RefusalsHaveReasons(orderType: string, created: Option<int>, delivery: Option<int>, now: int)
    ensures var v := Eligibility(orderType, created, delivery, now);
      v != Eligible && v != NoRule ==> |Reason(v)| > 0
  {
  }
}
