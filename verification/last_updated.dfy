/**
 * scripts/check_last_updated.py: the providers whose `last_updated` is more
 * than a week old, oldest first, and an exit code that is 1 exactly when
 * there is one. The cache file is the input `data` (provider name and
 * timestamp in seconds, in the file's order); `now` is a parameter.
 */
module LastUpdated {
  import opened Sorting

  const OneWeekSeconds: int := 7 * 24 * 60 * 60

  predicate Outdated(timestamp: int, now: int)
  {
    timestamp < now - OneWeekSeconds
  }

  /** Order by timestamp (the sort key). */
  predicate ByTime(a: (string, int), b: (string, int))
  {
    a.1 <= b.1
  }

  lemma ByTimeOrder()
    ensures TotalPreorder(ByTime)
  {
  }

  /** The outdated entries in input order. */
  function OutdatedIn(data: seq<(string, int)>, now: int): (r: seq<(string, int)>)
    ensures forall e :: e in r <==> e in data && Outdated(e.1, now)
    ensures |r| <= |data|
  {
    if data == [] then []
    else
      var init := data[..|data| - 1];
      var last := data[|data| - 1];
      assert forall e :: e in data <==> e in init || e == last;
      OutdatedIn(init, now) + (if Outdated(last.1, now) then [last] else [])
  }

  lemma {:induction false} OutdatedInDistinct(data: seq<(string, int)>, now: int)
    requires forall i, j :: 0 <= i < j < |data| ==> data[i].0 != data[j].0
    ensures Distinct(OutdatedIn(data, now))
  {
    if data != [] {
      var init := data[..|data| - 1];
      var last := data[|data| - 1];
      OutdatedInDistinct(init, now);
      forall e | e in OutdatedIn(init, now) ensures e != last {
        var i :| 0 <= i < |init| && init[i] == e;
        assert data[i] == e;
      }
    }
  }

  /**
   * `check_last_updated()`: collects the outdated providers, sorts them by
   * timestamp (stable, so equal timestamps keep the file's order) and
   * returns 1 if there are any, else 0.
   */
  method CheckLastUpdated(data: seq<(string, int)>, now: int) returns (code: int, outdated: seq<(string, int)>)
    requires forall i, j :: 0 <= i < j < |data| ==> data[i].0 != data[j].0
    ensures code == 1 <==> exists i :: 0 <= i < |data| && Outdated(data[i].1, now)
    ensures code == 0 <==> forall i :: 0 <= i < |data| ==> !Outdated(data[i].1, now)
    ensures forall e :: e in outdated <==> e in data && Outdated(e.1, now)
    ensures multiset(outdated) == multiset(OutdatedIn(data, now)) && Distinct(outdated)
    ensures SortedBy(outdated, ByTime)
    ensures forall z :: EqualTo(outdated, z, ByTime) == EqualTo(OutdatedIn(data, now), z, ByTime)
  {
    var unsorted := CollectOutdated(data, now);
    NoneOutdated(data, now);
    OutdatedInDistinct(data, now);
    ByTimeOrder();
    SortByCorrect(unsorted, ByTime);
    outdated := SortBy(unsorted, ByTime);
    PermutationDistinct(unsorted, outdated);
    forall e ensures e in outdated <==> e in unsorted {
      assert e in outdated <==> e in multiset(outdated);
      assert e in unsorted <==> e in multiset(unsorted);
    }
    code := if unsorted != [] then 1 else 0;
  }

  /** Nothing is collected exactly when no entry is outdated. */
  lemma NoneOutdated(data: seq<(string, int)>, now: int)
    ensures OutdatedIn(data, now) == [] <==> forall i :: 0 <= i < |data| ==> !Outdated(data[i].1, now)
  {
    var r := OutdatedIn(data, now);
    if r != [] {
      assert r[0] in data;
    }
    assert forall i :: 0 <= i < |data| && Outdated(data[i].1, now) ==> data[i] in r;
  }

  /** The collecting loop: appends each outdated entry in file order. */
  method CollectOutdated(data: seq<(string, int)>, now: int) returns (outdated: seq<(string, int)>)
    ensures outdated == OutdatedIn(data, now)
  {
    outdated := [];
    var i := 0;
    while i < |data|
      invariant 0 <= i <= |data|
      invariant outdated == OutdatedIn(data[..i], now)
    {
      assert data[..i + 1][..i] == data[..i];
      if Outdated(data[i].1, now) {
        outdated := outdated + [data[i]];
      }
      i := i + 1;
    }
    assert data[..i] == data;
  }
}
