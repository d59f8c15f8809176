/**
 * The registry-refresh rule of `main`: each loop iteration refreshes the
 * registry when at least an hour has passed since the last refresh, and
 * resets the clock only then, whether or not the refresh succeeded. Time is
 * whole seconds.
 */
module Driver {

  const RefreshInterval := 3600

  predicate RefreshDue(last: int, now: int)
  {
    now - last >= RefreshInterval
  }

  /** `last_pairs_update` after an iteration at time `now`. */
  function NextLast(last: int, now: int): int
  {
    if RefreshDue(last, now) then now else last
  }

  /** `last_pairs_update` after iterations at the times `ticks`, starting from `last`. */
  function LastAfter(last: int, ticks: seq<int>): int
  {
    if |ticks| == 0 then last else NextLast(LastAfter(last, ticks[..|ticks| - 1]), ticks[|ticks| - 1])
  }

  /** The times at which iterations at `ticks` refresh the registry, in order. */
  function RefreshTimes(last: int, ticks: seq<int>): seq<int>
  {
    if |ticks| == 0 then []
    else
      var now := ticks[|ticks| - 1];
      RefreshTimes(last, ticks[..|ticks| - 1])
        + (if RefreshDue(LastAfter(last, ticks[..|ticks| - 1]), now) then [now] else [])
  }

  /**
   * Refreshes are at least an hour apart, the first at least an hour after
   * the start, and `last_pairs_update` is always the latest refresh time (the
   * start time before any).
   */
  lemma {:induction false} RefreshSpacing(last: int, ticks: seq<int>)
    ensures var rs := RefreshTimes(last, ticks);
      && LastAfter(last, ticks) == (if |rs| == 0 then last else rs[|rs| - 1])
      && (|rs| > 0 ==> rs[0] - last >= RefreshInterval)
      && (forall j :: 0 < j < |rs| ==> rs[j] - rs[j - 1] >= RefreshInterval)
  {
    if |ticks| > 0 {
      RefreshSpacing(last, ticks[..|ticks| - 1]);
    }
  }

  /** The state `main` keeps across iterations. */
  class PairsSchedule {
    var lastPairsUpdate: int

    /** `update_trading_pairs()` then `last_pairs_update = datetime.now()` at start-up. */
    constructor (startedAt: int)
      ensures lastPairsUpdate == startedAt
    {
      lastPairsUpdate := startedAt;
    }

    /** One iteration's check; `refresh` says whether `update_trading_pairs()` is called. */
    method Tick(now: int) returns (refresh: bool)
      modifies this
      ensures refresh <==> RefreshDue(old(lastPairsUpdate), now)
      ensures lastPairsUpdate == NextLast(old(lastPairsUpdate), now)
      ensures now - lastPairsUpdate < RefreshInterval
    {
      refresh := now - lastPairsUpdate >= RefreshInterval;
      if refresh {
        lastPairsUpdate := now;
      }
    }

    /** Iterations at the times `ticks`; returns when each one refreshed. */
    method Run(ticks: seq<int>) returns (refreshed: seq<int>)
      modifies this
      ensures lastPairsUpdate == LastAfter(old(lastPairsUpdate), ticks)
      ensures refreshed == RefreshTimes(old(lastPairsUpdate), ticks)
    {
      refreshed := [];
      for i := 0 to |ticks|
        invariant lastPairsUpdate == LastAfter(old(lastPairsUpdate), ticks[..i])
        invariant refreshed == RefreshTimes(old(lastPairsUpdate), ticks[..i])
      {
        assert ticks[..i + 1][..i] == ticks[..i];
        var refresh := Tick(ticks[i]);
        if refresh {
          refreshed := refreshed + [ticks[i]];
        }
      }
      assert ticks[..|ticks|] == ticks;
    }
  }
}
