/** The maturity clock: converting the chosen maturity date into a relative lock time,
    and reading that lock time back from the hidden text field. Times are whole seconds. */
module MaturityClock {
  import opened FuturesTypes

  /** Seconds from `now` until `target` when that is positive, otherwise the sentinel -1. */
  function LockTime(now: int, target: int): (r: int)
    ensures r == -1 || r > 0
    ensures r > 0 <==> now < target
    ensures r > 0 ==> now + r == target
  {
    var secs := target - now;
    if secs > 0 then secs else -1
  }

  /** The integer read back from the lock-time field: an empty text, or a number outside the
      32-bit signed range, converts to 0. */
  function ReadLockTimeField(t: LockTimeText): (r: int)
    ensures MinInt32 <= r <= MaxInt32
    ensures t.Number? && MinInt32 <= t.n <= MaxInt32 ==> r == t.n
    ensures t.EmptyText? || t.n < MinInt32 || MaxInt32 < t.n ==> r == 0
  {
    match t
    case EmptyText => 0
    case Number(n) => if MinInt32 <= n <= MaxInt32 then n else 0
  }

  /** The date widget is set to `target` at clock reading `now`; the field is recomputed only
      when the widget's value actually changes. */
  function SetLockTarget(form: Form, now: int, target: int): (f: Form)
    ensures f.lockTarget == target
    ensures form.lockTarget != target ==> f.lockTimeField == Number(LockTime(now, target))
    ensures form.lockTarget == target ==> f == form
    ensures f == form.(lockTarget := f.lockTarget, lockTimeField := f.lockTimeField)
  {
    if form.lockTarget == target then form
    else form.(lockTarget := target, lockTimeField := Number(LockTime(now, target)))
  }

  /** What a caller reading the recipient sees after the date widget was moved to `target`:
      the exact delay when it fits in 32 bits, -1 for a past target, and 0 (no delay) for a
      target 2^31 seconds or more ahead. */
  lemma LockTimeReadBack(form: Form, now: int, target: int)
    requires form.lockTarget != target
    ensures var r := ReadLockTimeField(SetLockTarget(form, now, target).lockTimeField);
            && (target <= now ==> r == -1)
            && (now < target <= now + MaxInt32 ==> r == target - now)
            && (now + MaxInt32 < target ==> r == 0)
  {
  }

  /** Example: ten seconds in the past gives -1; one hour ahead gives 3600. */
  lemma LockTimeExamples(now: int)
    ensures LockTime(now, now - 10) == -1
    ensures LockTime(now, now + 3600) == 3600
  {
  }
}
