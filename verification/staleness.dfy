/**
 * The refresh rule of `update()` in cloudcheck/__init__.py: the registry is
 * updated when forced, or when at least `cache_hrs` hours have passed since
 * its `last_updated`. Times are whole seconds; the source divides the
 * elapsed seconds by 3600 as a float, which the real-valued contract below
 * states directly.
 */
module Staleness {

  /** The default `cache_hrs`: one week and one day. */
  const DefaultCacheHours: int := 168 + 24

  /** Whether `update()` calls the registry's update. */
  function ShouldUpdate(now: int, lastUpdated: int, cacheHours: int, force: bool): (r: bool)
    ensures r <==> force || (now - lastUpdated) as real / 3600.0 >= cacheHours as real
  {
    force || now - lastUpdated >= cacheHours * 3600
  }

  /** `force=True` always updates. */
  lemma ForceUpdates(now: int, lastUpdated: int, cacheHours: int)
    ensures ShouldUpdate(now, lastUpdated, cacheHours, true)
  {
  }

  /** Without `force`, once an update is due it stays due as time passes. */
  lemma DueStaysDue(now: int, later: int, lastUpdated: int, cacheHours: int)
    requires now <= later && ShouldUpdate(now, lastUpdated, cacheHours, false)
    ensures ShouldUpdate(later, lastUpdated, cacheHours, false)
  {
  }

  /** With the default threshold, 192 hours after the last update is due and a second less is not. */
  lemma DefaultThreshold(lastUpdated: int)
    ensures ShouldUpdate(lastUpdated + 192 * 3600, lastUpdated, DefaultCacheHours, false)
    ensures !ShouldUpdate(lastUpdated + 192 * 3600 - 1, lastUpdated, DefaultCacheHours, false)
  {
  }
}
