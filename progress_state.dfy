/**
 * `ProgressState`: the mutable progress of one download, updated by the
 * worker and read by the display through snapshots. The clock is a
 * parameter (`now`, in seconds); the lock is left out.
 */
module ProgressStates {
  import opened Common
  import opened ProgressSnapshots

  /** The minimum time between two speed measurements, in seconds. */
  const SpeedInterval: real := 0.5

  class ProgressState {
    const queueId: int
    var downloaded: int
    var total: Option<int>
    var phase: ProgressPhase
    var speed: real
    var eta: Option<real>
    var lastDownloaded: int
    var lastTime: real
    var active: bool

    /** The speed and the ETA are never negative. */
    ghost predicate Valid()
      reads this
    {
      speed >= 0.0 && (eta.Some? ==> eta.value >= 0.0)
    }

    /** `ProgressState(queue_id, total)`: nothing downloaded yet, connecting, active. */
    constructor (queueId: int, total: Option<int>, now: real)
      ensures Valid()
      ensures this.queueId == queueId && downloaded == 0 && this.total == total && phase == Connecting
      ensures speed == 0.0 && eta == None && lastDownloaded == 0 && lastTime == now && active
    {
      this.queueId := queueId;
      downloaded := 0;
      this.total := total;
      phase := Connecting;
      speed := 0.0;
      eta := None;
      lastDownloaded := 0;
      lastTime := now;
      active := true;
    }

    /**
     * `update(downloaded, total)` at time `now`: the total, when given, is
     * raised to at least 0; the count is raised to at least 0 and lowered to
     * the total; the first positive count moves CONNECTING to DOWNLOADING;
     * and at least half a second after the last measurement the speed and
     * the ETA are measured again from the raw count.
     */
    method Update(d: int, t: Option<int>, now: real)
      requires Valid()
      modifies this
      ensures Valid()
      ensures total == (if t.Some? then Some(if t.value < 0 then 0 else t.value) else old(total))
      ensures downloaded == (if total.Some? && total.value < AtLeastZero(d) then total.value else AtLeastZero(d))
      ensures total.None? || total.value >= 0 ==> Clean(downloaded, total) && downloaded == Clamped(d, total).0
      ensures phase == (if d > 0 && old(phase) == Connecting then Downloading else old(phase))
      ensures active == old(active)
      ensures now - old(lastTime) < SpeedInterval ==>
                speed == old(speed) && eta == old(eta) && lastDownloaded == old(lastDownloaded) && lastTime == old(lastTime)
      ensures now - old(lastTime) >= SpeedInterval ==>
                && speed == Speed(d - old(lastDownloaded), now - old(lastTime))
                && eta == Eta(total, d, speed)
                && lastDownloaded == d && lastTime == now
    {
      downloaded := AtLeastZero(d);
      if t.Some? {
        total := Some(AtLeastZero(t.value));
      }
      if total.Some? && downloaded > total.value {
        downloaded := total.value;
      }
      if d > 0 && phase == Connecting {
        phase := Downloading;
      }
      Measure(d, now);
    }

    /** The speed and ETA measurement of `update`, at most every half second. */
    method Measure(d: int, now: real)
      requires Valid()
      modifies this
      ensures Valid()
      ensures downloaded == old(downloaded) && total == old(total) && phase == old(phase) && active == old(active)
      ensures now - old(lastTime) < SpeedInterval ==>
                speed == old(speed) && eta == old(eta) && lastDownloaded == old(lastDownloaded) && lastTime == old(lastTime)
      ensures now - old(lastTime) >= SpeedInterval ==>
                && speed == Speed(d - old(lastDownloaded), now - old(lastTime))
                && eta == Eta(total, d, speed)
                && lastDownloaded == d && lastTime == now
    {
      var elapsed := now - lastTime;
      if elapsed >= SpeedInterval {
        var bytes := d - lastDownloaded;
        if elapsed > 0.0 {
          speed := Speed(bytes, elapsed);
          eta := Eta(total, d, speed);
        }
        lastDownloaded := d;
        lastTime := now;
      }
    }

    /** `set_phase(phase)`. */
    method SetPhase(p: ProgressPhase)
      modifies this
      ensures phase == p
      ensures downloaded == old(downloaded) && total == old(total) && speed == old(speed) && eta == old(eta)
      ensures lastDownloaded == old(lastDownloaded) && lastTime == old(lastTime) && active == old(active)
    {
      phase := p;
    }

    /** `set_active(active)`. */
    method SetActive(a: bool)
      modifies this
      ensures active == a
      ensures downloaded == old(downloaded) && total == old(total) && phase == old(phase)
      ensures speed == old(speed) && eta == old(eta)
      ensures lastDownloaded == old(lastDownloaded) && lastTime == old(lastTime)
    {
      active := a;
    }

    /**
     * `get_snapshot()`: the current fields, through the snapshot's clamps.
     * With a sane total the counts shown are clean, and they are the fields
     * themselves when those are clean; a negative total, which only the
     * constructor can store, shows as 0 with the count equal to it.
     */
    function GetSnapshot(): (s: Snapshot)
      reads this
      ensures s.queueId == queueId && s.phase == phase && s.speed == speed && s.eta == eta
      ensures s.total.Some? ==> 0 <= s.total.value && s.downloaded <= s.total.value
      ensures SaneTotal(total) ==> Clean(s.downloaded, s.total)
      ensures Clean(downloaded, total) ==> s.downloaded == downloaded && s.total == total
      ensures !SaneTotal(total) ==> s.total == Some(0) && s.downloaded == total.value
    {
      MakeSnapshot(queueId, downloaded, total, phase, speed, eta)
    }
  }

  /**
   * A state built with a negative total keeps it through an update that
   * gives no total, so its count is lowered to that total, and the snapshot
   * shows a negative count of a total of 0.
   */
  method NegativeTotalShowsNegativeCount() returns (s: Snapshot)
    ensures s.downloaded == -500 && s.total == Some(0) && !Clean(s.downloaded, s.total)
  {
    var state := new ProgressState(1, Some(-500), 0.0);
    state.Update(-100, None, 0.0);
    s := state.GetSnapshot();
  }

  /** `max(0, n)`. */
  function AtLeastZero(n: int): (r: int)
    ensures r >= 0 && r >= n && (r == 0 || r == n)
  {
    if n < 0 then 0 else n
  }

  /** `max(0.0, bytes_diff / time_diff)`. */
  function Speed(bytes: int, elapsed: real): (r: real)
    requires elapsed > 0.0
    ensures r >= 0.0
    ensures bytes >= 0 ==> r * elapsed == bytes as real
  {
    if bytes as real / elapsed < 0.0 then 0.0 else bytes as real / elapsed
  }

  /** The ETA: the bytes left at the measured speed, when a non-zero total is above the raw count and bytes are flowing. */
  function Eta(total: Option<int>, d: int, speed: real): (r: Option<real>)
    ensures r.Some? <==> total.Some? && total.value != 0 && total.value > d && speed > 0.0
    ensures r.Some? ==> r.value >= 0.0 && r.value * speed == (total.value - d) as real
  {
    if total.Some? && total.value != 0 && total.value > d && speed > 0.0 then
      var remaining := total.value - d;
      Some(if remaining as real / speed < 0.0 then 0.0 else remaining as real / speed)
    else None
  }
}
