/** Deadlines on the monotonic clock, with C's truncating division. */
module XpcDeadline {

  const NS_PER_MS: int := 1_000_000
  const NS_PER_SEC: int := 1_000_000_000
  const INT_MAX: int := 2147483647

  /** struct timespec of a clock reading in nanoseconds. */
  datatype Timespec = Timespec(sec: int, nsec: int)

  function ToTimespec(ns: int): Timespec {
    Timespec(ns / NS_PER_SEC, ns % NS_PER_SEC)
  }

  datatype Deadline = Deadline(at: Timespec, active: bool)

  /** The instant a deadline stands for. */
  function Instant(dl: Deadline): int {
    dl.at.sec * NS_PER_SEC + dl.at.nsec
  }

  predicate Normal(dl: Deadline) {
    0 <= dl.at.nsec < NS_PER_SEC
  }

  /** deadline_set, called at time `now`. */
  function SetDeadline(now: int, timeoutMs: int): (dl: Deadline)
    requires timeoutMs <= INT_MAX
    ensures dl.active == (timeoutMs >= 0) && Normal(dl)
    ensures dl.active ==> Instant(dl) == now + timeoutMs * NS_PER_MS
  {
    var t := ToTimespec(now);
    if timeoutMs < 0 then Deadline(t, false)
    else
      var sec := t.sec + timeoutMs / 1000;
      var nsec := t.nsec + timeoutMs % 1000 * NS_PER_MS;
      if nsec >= NS_PER_SEC then Deadline(Timespec(sec + 1, nsec - NS_PER_SEC), true)
      else Deadline(Timespec(sec, nsec), true)
  }

  /** Integer division as C has it: toward zero. */
  function TruncDiv(a: int, b: int): int
    requires b > 0
  {
    if a >= 0 then a / b else -((-a) / b)
  }

  function Unclamped(dl: Deadline, now: int): int {
    var t := ToTimespec(now);
    (dl.at.sec - t.sec) * 1000 + TruncDiv(dl.at.nsec - t.nsec, NS_PER_MS)
  }

  /** deadline_remaining_ms: -1 waits forever, -2 has expired. */
  function RemainingMs(dl: Deadline, now: int): int {
    if !dl.active then -1
    else
      var ms := Unclamped(dl, now);
      if ms <= 0 then -2 else if ms > INT_MAX then INT_MAX else ms
  }

  /**
   * The number of milliseconds left is within one of the truth on either
   * side, and a deadline that has passed is always reported as expired.
   */
  lemma RemainingIsTwoSided(dl: Deadline, now: int)
    requires dl.active && Normal(dl)
    ensures var left := Instant(dl) - now;
      && left - NS_PER_MS < Unclamped(dl, now) * NS_PER_MS < left + NS_PER_MS
      && (left <= 0 ==> RemainingMs(dl, now) == -2)
      && (RemainingMs(dl, now) == -2 ==> left < NS_PER_MS)
      && (left <= INT_MAX * NS_PER_MS ==> Unclamped(dl, now) <= INT_MAX)
  {
    var t := ToTimespec(now);
    var ds, dn := dl.at.sec - t.sec, dl.at.nsec - t.nsec;
    var q := TruncDiv(dn, NS_PER_MS);
    assert dn - NS_PER_MS < q * NS_PER_MS < dn + NS_PER_MS;
    assert Unclamped(dl, now) * NS_PER_MS == ds * NS_PER_SEC + q * NS_PER_MS;
    var left := Instant(dl) - now;
    assert left == ds * NS_PER_SEC + dn;
    assert -NS_PER_SEC < dn < NS_PER_SEC;
    if left <= 0 {
      assert ds <= 0 || (ds == 1 && dn <= -NS_PER_SEC);
      assert ds <= 0;
      if ds == 0 {
        assert q <= 0;
      } else {
        assert q < 1000;
      }
    }
  }
}
