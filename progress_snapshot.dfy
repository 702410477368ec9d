/**
 * `ProgressSnapshot`: an immutable reading of one download's progress (or of
 * all of them together). Building one clamps the counts; the percentage and
 * the ETA text are derived from it. Python's floats are modelled as exact
 * reals.
 */
module ProgressSnapshots {
  import opened Common
  import opened Strings

  /** `ProgressPhase`. */
  datatype ProgressPhase = Connecting | Downloading | Finalizing | Paused

  /** The fields of a snapshot after construction. */
  datatype Snapshot = Snapshot(
    queueId: int,
    downloaded: int,
    total: Option<int>,
    phase: ProgressPhase,
    speed: real,
    eta: Option<real>)

  /** Counts a snapshot can show: nothing negative, and never more downloaded than the total. */
  predicate Clean(downloaded: int, total: Option<int>) {
    0 <= downloaded && (total.Some? ==> downloaded <= total.value)
  }

  /**
   * `__post_init__` as written: the count is raised to 0, then lowered to the
   * total, and only then is the total raised to 0.
   */
  function ClampedAsWritten(downloaded: int, total: Option<int>): (int, Option<int>) {
    var d0 := if downloaded < 0 then 0 else downloaded;
    var d1 := if total.Some? && total.value < d0 then total.value else d0;
    (d1, if total.Some? && total.value < 0 then Some(0) else total)
  }

  /** The clamps in the intended order: the total is raised to 0 before the count is lowered to it. */
  function Clamped(downloaded: int, total: Option<int>): (r: (int, Option<int>))
    ensures Clean(r.0, r.1)
    ensures r.1.Some? <==> total.Some?
    ensures total.Some? ==> r.1.value == (if total.value < 0 then 0 else total.value)
  {
    var t := if total.Some? && total.value < 0 then Some(0) else total;
    var d0 := if downloaded < 0 then 0 else downloaded;
    (if t.Some? && t.value < d0 then t.value else d0, t)
  }

  /** A total that is absent or not negative, as every update leaves it. */
  predicate SaneTotal(total: Option<int>) {
    total.None? || total.value >= 0
  }

  /**
   * `ProgressSnapshot(queue_id, downloaded, total, phase, speed_bps,
   * eta_seconds)`, with the clamps as written: the total shown is never
   * negative and the count never above it; the count is clean whenever the
   * total given was sane, and equal to a negative total given otherwise.
   */
  function MakeSnapshot(queueId: int, downloaded: int, total: Option<int>, phase: ProgressPhase,
                        speed: real, eta: Option<real>): (s: Snapshot)
    ensures s.queueId == queueId && s.phase == phase && s.speed == speed && s.eta == eta
    ensures s.total.Some? <==> total.Some?
    ensures s.total.Some? ==> 0 <= s.total.value && s.downloaded <= s.total.value
    ensures SaneTotal(total) ==> Clean(s.downloaded, s.total) && (s.downloaded, s.total) == Clamped(downloaded, total)
    ensures !SaneTotal(total) ==> s.total == Some(0) && s.downloaded == total.value
  {
    var (d, t) := ClampedAsWritten(downloaded, total);
    Snapshot(queueId, d, t, phase, speed, eta)
  }

  /**
   * The `percentage` property: 0 without a positive total, otherwise the
   * share in whole percent, truncated towards zero as `int()` does, and at
   * most 100.
   */
  function Percentage(s: Snapshot): (p: int)
    ensures p <= 100
    ensures s.downloaded >= 0 ==> p >= 0
  {
    if s.total.None? || s.total.value <= 0 then 0
    else
      var share := if s.downloaded >= 0 then (100 * s.downloaded) / s.total.value
                   else -((100 * -s.downloaded) / s.total.value);
      if share < 100 then share else 100
  }

  /** `f"{n:02d}"`: at least two characters, zero-padded. */
  function Pad2(n: int): (r: string)
    ensures |r| >= 2
  {
    if 0 <= n < 10 then "0" + NatToString(n) else IntToString(n)
  }

  /** Python's `//` on floats: the floor of the quotient. */
  function FloorDiv(x: real, y: real): int
    requires y != 0.0
  {
    (x / y).Floor
  }

  /** The `eta_formatted` property: "00:00" without an ETA, otherwise whole minutes and the seconds left over. */
  function EtaText(eta: Option<real>): string {
    match eta
    case None => "00:00"
    case Some(e) =>
      var minutes := FloorDiv(e, 60.0);
      var seconds := (e - 60.0 * minutes as real).Floor;
      Pad2(minutes) + ":" + Pad2(seconds)
  }

  // ---------------------------------------------------------------------------
  // Properties
  // ---------------------------------------------------------------------------

  /**
   * The as-written clamps can leave a negative count: with a negative total
   * the count is lowered to it before the total is raised to 0.
   */
  lemma ClampOrderCounterexample()
    ensures ClampedAsWritten(-100, Some(-500)) == (-500, Some(0))
    ensures !Clean(-500, Some(0))
    ensures Clamped(-100, Some(-500)) == (0, Some(0))
  {
  }

  /** The two orders agree whenever the total is absent or not negative, and clean counts are kept as they are. */
  lemma ClampOrdersAgree(downloaded: int, total: Option<int>)
    requires total.None? || total.value >= 0
    ensures ClampedAsWritten(downloaded, total) == Clamped(downloaded, total)
    ensures Clean(downloaded, total) ==> Clamped(downloaded, total) == (downloaded, total)
  {
  }

  /**
   * The clamped count is the nearest clean count: the input when clean,
   * otherwise 0 when the input is negative and the total when it is above it.
   */
  lemma ClampedIsNearest(downloaded: int, total: Option<int>)
    ensures var (d, t) := Clamped(downloaded, total);
      && (downloaded < 0 ==> d == 0)
      && (t.Some? && downloaded > t.value ==> d == t.value)
      && (Clean(downloaded, t) ==> d == downloaded)
      && Clamped(d, t) == (d, t)
  {
  }

  /**
   * The percentage of a clean snapshot with a positive total is the share
   * rounded down: 100 exactly when everything is downloaded, and otherwise
   * `p` with `p * total <= 100 * downloaded < (p + 1) * total`.
   */
  lemma PercentageIsShare(s: Snapshot)
    requires Clean(s.downloaded, s.total) && s.total.Some? && s.total.value > 0
    ensures var p := Percentage(s);
      && 0 <= p <= 100
      && (p == 100 <==> s.downloaded == s.total.value)
      && (p < 100 ==> p * s.total.value <= 100 * s.downloaded < (p + 1) * s.total.value)
  {
    ShareOfTotal(s.downloaded, s.total.value);
  }

  /** The share `100 * d / t` of a clean count `d` of `t`, rounded down. */
  lemma ShareOfTotal(d: int, t: int)
    requires 0 <= d <= t && t > 0
    ensures var q := (100 * d) / t;
      && 0 <= q <= 100
      && (q == 100 <==> d == t)
      && (q < 100 ==> q * t <= 100 * d < (q + 1) * t)
  {
    var a := 100 * d;
    var q := a / t;
    DivFacts(a, t);
    MulCancel(-1, q + 1, t);
    if d < t {
      MulMonotone(d, t, 100);
      MulCancel(q, 100, t);
    } else {
      MulCancel(q, 101, t);
      MulCancel(99, q + 1, t);
    }
  }

  /** Multiplying by the same positive number keeps a strict order. */
  lemma MulMonotone(x: int, y: int, k: int)
    requires x < y && k > 0
    ensures k * x < k * y
  {
  }

  /** A strict order between multiples of the same positive number is one between the factors. */
  lemma MulCancel(x: int, y: int, t: int)
    requires t > 0 && x * t < y * t
    ensures x < y
  {
  }

  lemma DivFacts(a: int, t: int)
    requires t > 0
    ensures (a / t) * t <= a < (a / t + 1) * t
  {
  }

  /** A larger count never shows a smaller percentage. */
  lemma PercentageMonotone(s: Snapshot, d: int)
    requires s.downloaded >= 0 && d >= s.downloaded
    ensures Percentage(s) <= Percentage(s.(downloaded := d))
  {
    if s.total.Some? && s.total.value > 0 {
      DivMonotone(100 * s.downloaded, 100 * d, s.total.value);
    }
  }

  lemma DivMonotone(a: int, b: int, t: int)
    requires t > 0 && a <= b
    ensures a / t <= b / t
  {
    DivFacts(a, t);
    DivFacts(b, t);
  }

  /**
   * An ETA of `60 * m + s` seconds, with `s < 60`, reads "mm:ss": whole
   * minutes and the seconds left over, each padded to two digits.
   */
  lemma EtaWholeSeconds(m: nat, s: nat, frac: real)
    requires s < 60 && 0.0 <= frac < 1.0
    ensures EtaText(Some((60 * m + s) as real + frac)) == Pad2(m) + ":" + Pad2(s)
  {
    var e := (60 * m + s) as real + frac;
    assert e / 60.0 == m as real + (s as real + frac) / 60.0;
    assert FloorDiv(e, 60.0) == m;
    assert e - 60.0 * m as real == s as real + frac;
  }

  /** Below 100 minutes the text is five characters, the two numbers read back as minutes and seconds. */
  lemma EtaTextShape(m: nat, s: nat)
    requires m < 100 && s < 60
    ensures var text := EtaText(Some((60 * m + s) as real));
      && |text| == 5 && text[2] == ':'
      && DigitsValue(text[..2]) == m && DigitsValue(text[3..]) == s
  {
    EtaWholeSeconds(m, s, 0.0);
    assert (60 * m + s) as real + 0.0 == (60 * m + s) as real;
    Pad2Value(m);
    Pad2Value(s);
    var text := EtaText(Some((60 * m + s) as real));
    assert text[..2] == Pad2(m);
    assert text[3..] == Pad2(s);
  }

  /** Two-digit padding of a number below 100 is two digits reading back as it. */
  lemma Pad2Value(n: nat)
    requires n < 100
    ensures |Pad2(n)| == 2 && AllDigits(Pad2(n)) && DigitsValue(Pad2(n)) == n
  {
    if n < 10 {
      var r := Pad2(n);
      assert r == [DigitChar(0), DigitChar(n)];
      assert r[..1] == [DigitChar(0)];
      assert DigitsValue(r[..1]) == 0 by {
        assert r[..1][..0] == [];
      }
    } else {
      var r := NatToString(n);
      assert n / 10 < 10;
      assert NatToString(n / 10) == [DigitChar(n / 10)];
      assert r == [DigitChar(n / 10), DigitChar(n % 10)];
      assert Pad2(n) == r;
      NatToStringValue(n);
      assert r[..1] == [DigitChar(n / 10)];
    }
  }
}
