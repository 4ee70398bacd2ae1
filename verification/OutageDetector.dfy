/** When the coordinator is confirmed lost (native/adapters/shared/fallback_outage_detector.h). */
module OutageDetector {

  datatype Config = Config(failedProbesToConfirm: nat, minimumLossMillis: int)

  datatype Detector = Detector(failures: nat, firstFailureAt: int, lastFailureAt: int)

  const FRESH := Detector(0, 0, 0)

  datatype Probe = Probe(reached: bool, at: int)

  /** recordProbe: a clock stepped backwards restarts the span. */
  function Recorded(d: Detector, p: Probe): Detector {
    if p.reached then d.(failures := 0)
    else Detector(d.failures + 1, if d.failures == 0 || p.at < d.firstFailureAt then p.at else d.firstFailureAt, p.at)
  }

  predicate ConfirmedLost(c: Config, d: Detector) {
    d.failures >= c.failedProbesToConfirm && d.lastFailureAt - d.firstFailureAt >= c.minimumLossMillis
  }

  function RecordedAll(d: Detector, probes: seq<Probe>): Detector {
    if probes == [] then d else Recorded(RecordedAll(d, probes[..|probes| - 1]), probes[|probes| - 1])
  }

  /** How many of the latest probes failed in a row. */
  function FailedRun(probes: seq<Probe>): (n: nat)
    ensures n <= |probes|
    ensures forall i :: |probes| - n <= i < |probes| ==> !probes[i].reached
    ensures n < |probes| ==> probes[|probes| - n - 1].reached
  {
    if probes == [] || probes[|probes| - 1].reached then 0
    else 1 + FailedRun(probes[..|probes| - 1])
  }

  /** The earliest time among the probes from i on. */
  ghost predicate EarliestIn(probes: seq<Probe>, i: int, at: int) {
    && 0 <= i < |probes|
    && (exists j :: i <= j < |probes| && probes[j].at == at)
    && forall j :: i <= j < |probes| ==> at <= probes[j].at
  }

  /** The detector's three numbers, in terms of the probes themselves. */
  lemma {:induction false} DetectorCounts(probes: seq<Probe>)
    ensures var d, n := RecordedAll(FRESH, probes), FailedRun(probes);
            && d.failures == n
            && (n > 0 ==>
                  d.lastFailureAt == probes[|probes| - 1].at && EarliestIn(probes, |probes| - n, d.firstFailureAt))
    decreases |probes|
  {
    if probes == [] {
    } else {
      var k := |probes| - 1;
      var before := probes[..k];
      DetectorCounts(before);
      var d, n := RecordedAll(FRESH, before), FailedRun(before);
      var p := probes[k];
      if !p.reached {
        var at := RecordedAll(FRESH, probes).firstFailureAt;
        if at == p.at {
          assert probes[k].at == at;
        } else {
          var j :| k - n <= j < k && before[j].at == at;
          assert probes[j].at == at;
        }
        assert forall j :: k - n <= j < k ==> probes[j] == before[j];
      }
    }
  }

  /** Loss is confirmed exactly when the latest probes failed in a row, enough of them, and the last of them came long
      enough after one of them. */
  lemma LostMeansALongRunOfFailures(c: Config, probes: seq<Probe>)
    requires c.failedProbesToConfirm > 0
    ensures ConfirmedLost(c, RecordedAll(FRESH, probes)) <==>
              var n, last := FailedRun(probes), |probes| - 1;
              && n >= c.failedProbesToConfirm
              && exists j :: last - n < j <= last && probes[last].at - probes[j].at >= c.minimumLossMillis
  {
    DetectorCounts(probes);
  }

  class CoordinatorOutageDetector {
    const config: Config
    var probed: bool
    var consecutiveFailures: nat
    var firstFailureAtMillis: int
    var lastFailureAtMillis: int

    constructor (config: Config)
      ensures this.config == config && View() == FRESH && !probed
    {
      this.config := config;
      probed := false;
      consecutiveFailures, firstFailureAtMillis, lastFailureAtMillis := 0, 0, 0;
    }

    function View(): Detector
      reads this
    {
      Detector(consecutiveFailures, firstFailureAtMillis, lastFailureAtMillis)
    }

    method RecordProbe(reached: bool, now: int)
      modifies this
      ensures View() == Recorded(old(View()), Probe(reached, now)) && probed
    {
      probed := true;
      if reached {
        consecutiveFailures := 0;
        return;
      }
      if consecutiveFailures == 0 || now < firstFailureAtMillis {
        firstFailureAtMillis := now;
      }
      consecutiveFailures := consecutiveFailures + 1;
      lastFailureAtMillis := now;
    }

    method IsConfirmedLost() returns (lost: bool)
      ensures lost == ConfirmedLost(config, View())
    {
      lost := consecutiveFailures >= config.failedProbesToConfirm
              && lastFailureAtMillis - firstFailureAtMillis >= config.minimumLossMillis;
    }
  }
}
