/**
 * The loader of src/lib.rs: `CloudCheck` keeps a radix of normalised keys,
 * a map from each key to the providers listed under it, and the time of the
 * last network fetch. `ensure_loaded` decides whether the data must be
 * refreshed (older than 24 hours), reads it from the cache file or the
 * network, rebuilds both structures, and `lookup` answers from them.
 *
 * Time is whole seconds. The radix is its set of inserted keys; its `get`
 * and `insert` (the external `radixtarget` crate) are the parameters of
 * `RadixOps`. File and network access are the fields of `World`, JSON
 * decoding is the parameter `decode`. Locks are dropped: the model is
 * sequential.
 */
module Loader {
  import opened Wrappers

  const CacheValidSeconds: int := 24 * 60 * 60

  datatype CloudProvider = CloudProvider(name: string, tags: seq<string>)

  datatype ProviderData = ProviderData(name: string, tags: seq<string>, cidrs: seq<string>, domains: seq<string>)

  /** What `radix.insert` answered. */
  datatype Inserted = Inserted(key: string) | NotInserted | InsertFailed

  /** `get` looks a target up among the inserted keys; `insert` adds one. */
  datatype RadixOps = RadixOps(get: (set<string>, string) -> Option<string>, insert: (set<string>, string) -> Inserted)

  type ProvidersMap = map<string, seq<CloudProvider>>

  /** What the cache file's metadata gave. */
  datatype FileStat = Missing | NoMtime | Modified(time: int)

  /** The outside world as one call of `ensure_loaded` sees it. */
  datatype World = World(
    now: int,                       // `SystemTime::now()` at the start
    homeSet: bool,                  // `HOME` is set, so the cache path exists
    stat: FileStat,
    cacheFile: Option<string>,      // `read_to_string` of the cache file
    readTime: int,                  // `SystemTime::now()` after that read
    network: Option<string>)        // fetch-and-write-cache; `None` on any error

  datatype LoadError = NoHome | FetchFailed | DecodeFailed

  // ------------------------------------------------------------------ refresh decision

  /** `get_last_fetch_time`: the in-memory time first, else the cache file's mtime. */
  function LastFetchTime(lastFetch: Option<int>, stat: FileStat): (r: Option<int>)
    ensures lastFetch.Some? ==> r == lastFetch
    ensures lastFetch.None? ==> (r.Some? <==> stat.Modified?)
    ensures lastFetch.None? && stat.Modified? ==> r == Some(stat.time)
  {
    if lastFetch.Some? then lastFetch
    else match stat
      case Modified(t) => Some(t)
      case _ => None
  }

  /**
   * A refresh is needed without a last-fetch time, when that time lies in the
   * future (`duration_since` fails), or when 24 hours have passed.
   */
  function NeedsRefresh(last: Option<int>, now: int): (r: bool)
    ensures last.None? ==> r
    ensures last.Some? && last.value <= now ==> (r <==> now - last.value >= CacheValidSeconds)
    ensures last.Some? && last.value > now ==> r
  {
    match last
    case None => true
    case Some(t) => if t > now then true else now - t >= CacheValidSeconds
  }

  /** Once a refresh is due it stays due as time goes on (for a past fetch time). */
  lemma RefreshMonotone(t: int, now: int, later: int)
    requires t <= now <= later && NeedsRefresh(Some(t), now)
    ensures NeedsRefresh(Some(t), later)
  {
  }

  /** Right after a fetch no refresh is due, and exactly 24 hours later one is. */
  lemma RefreshWindow(t: int)
    ensures !NeedsRefresh(Some(t), t) && !NeedsRefresh(Some(t), t + CacheValidSeconds - 1)
    ensures NeedsRefresh(Some(t), t + CacheValidSeconds)
  {
  }

  // ------------------------------------------------------------------ building the map

  /** One provider's items in insertion order: its CIDRs, then its domains. */
  function ItemsOf(p: ProviderData): seq<(CloudProvider, string)>
  {
    var cp := CloudProvider(p.name, p.tags);
    Pairs(cp, p.cidrs) + Pairs(cp, p.domains)
  }

  function Items(ps: seq<ProviderData>): seq<(CloudProvider, string)>
  {
    if ps == [] then [] else Items(ps[..|ps| - 1]) + ItemsOf(ps[|ps| - 1])
  }

  /** The radix keys, the map, and (for stating properties) the accepted items as (key, provider). */
  datatype Built = Built(keys: set<string>, providers: ProvidersMap, accepted: seq<(string, CloudProvider)>)

  /** The key an item is filed under: `get`, else `insert`; `None` when skipped. */
  function Normalise(ops: RadixOps, keys: set<string>, item: string): Option<string>
  {
    match ops.get(keys, item)
    case Some(n) => Some(n)
    case None =>
      match ops.insert(keys, item)
      case Inserted(n) => Some(n)
      case _ => None
  }

  /** One item: filed under its key (appended), or skipped. */
  function Step(ops: RadixOps, b: Built, item: (CloudProvider, string)): Built
  {
    match Normalise(ops, b.keys, item.1)
    case None => b
    case Some(n) =>
      var keys := if ops.get(b.keys, item.1).Some? then b.keys else b.keys + {n};
      var list := if n in b.providers then b.providers[n] else [];
      Built(keys, b.providers[n := list + [item.0]], b.accepted + [(n, item.0)])
  }

  /** The items filed one after another, starting from `b`. */
  function FoldFrom(ops: RadixOps, b: Built, items: seq<(CloudProvider, string)>): Built
  {
    if items == [] then b
    else Step(ops, FoldFrom(ops, b, items[..|items| - 1]), items[|items| - 1])
  }

  function Fold(ops: RadixOps, items: seq<(CloudProvider, string)>): Built
  {
    FoldFrom(ops, Built({}, map[], []), items)
  }

  lemma {:induction false} FoldAppend(ops: RadixOps, b: Built, xs: seq<(CloudProvider, string)>, ys: seq<(CloudProvider, string)>)
    ensures FoldFrom(ops, b, xs + ys) == FoldFrom(ops, FoldFrom(ops, b, xs), ys)
  {
    if ys == [] {
      assert xs + ys == xs;
    } else {
      var init := ys[..|ys| - 1];
      assert (xs + ys)[..|xs + ys| - 1] == xs + init;
      FoldAppend(ops, b, xs, init);
    }
  }

  /** `(provider, item)` for each item. */
  function Pairs(cp: CloudProvider, xs: seq<string>): (r: seq<(CloudProvider, string)>)
    ensures |r| == |xs| && forall i :: 0 <= i < |xs| ==> r[i] == (cp, xs[i])
  {
    seq(|xs|, i requires 0 <= i < |xs| => (cp, xs[i]))
  }

  /** The providers of the accepted items filed under `n`, in order. */
  function Under(accepted: seq<(string, CloudProvider)>, n: string): seq<CloudProvider>
  {
    if accepted == [] then []
    else
      var last := accepted[|accepted| - 1];
      Under(accepted[..|accepted| - 1], n) + (if last.0 == n then [last.1] else [])
  }

  /** One inner loop of `build_data_structures`: the items of one provider, filed in order. */
  method FileItems(ops: RadixOps, keys0: set<string>, providers0: ProvidersMap, ghost accepted: seq<(string, CloudProvider)>,
                   cp: CloudProvider, xs: seq<string>)
    returns (keys: set<string>, providers: ProvidersMap)
    ensures var b := FoldFrom(ops, Built(keys0, providers0, accepted), Pairs(cp, xs));
      keys == b.keys && providers == b.providers
  {
    keys, providers := keys0, providers0;
    ghost var b0 := Built(keys0, providers0, accepted);
    var j := 0;
    while j < |xs|
      invariant 0 <= j <= |xs|
      invariant keys == FoldFrom(ops, b0, Pairs(cp, xs[..j])).keys
      invariant providers == FoldFrom(ops, b0, Pairs(cp, xs[..j])).providers
    {
      var item := xs[j];
      assert Pairs(cp, xs[..j + 1])[..j] == Pairs(cp, xs[..j]);
      var normalised: string;
      match ops.get(keys, item) {
        case Some(n) =>
          normalised := n;
        case None =>
          match ops.insert(keys, item) {
            case Inserted(n) =>
              normalised := n;
              keys := keys + {n};
            case NotInserted =>
              j := j + 1;
              continue;
            case InsertFailed =>
              j := j + 1;
              continue;
          }
      }
      var list := if normalised in providers then providers[normalised] else [];
      providers := providers[normalised := list + [cp]];
      j := j + 1;
    }
    assert xs[..j] == xs;
  }

  /**
   * `build_data_structures`: every CIDR and then every domain of every
   * provider is filed under the key `get` or `insert` gives it; an item
   * `insert` refuses or fails on is skipped.
   */
  method BuildDataStructures(ops: RadixOps, data: seq<ProviderData>) returns (keys: set<string>, providers: ProvidersMap)
    ensures keys == Fold(ops, Items(data)).keys && providers == Fold(ops, Items(data)).providers
  {
    keys := {};
    providers := map[];
    var i := 0;
    while i < |data|
      invariant 0 <= i <= |data|
      invariant keys == Fold(ops, Items(data[..i])).keys && providers == Fold(ops, Items(data[..i])).providers
    {
      var p := data[i];
      var cp := CloudProvider(p.name, p.tags);
      ghost var b0 := Fold(ops, Items(data[..i]));
      assert data[..i + 1][..i] == data[..i];
      assert Items(data[..i + 1]) == Items(data[..i]) + Pairs(cp, p.cidrs) + Pairs(cp, p.domains);
      FoldAppend(ops, Built({}, map[], []), Items(data[..i]), Pairs(cp, p.cidrs));
      FoldAppend(ops, Built({}, map[], []), Items(data[..i]) + Pairs(cp, p.cidrs), Pairs(cp, p.domains));
      ghost var b1 := FoldFrom(ops, b0, Pairs(cp, p.cidrs));
      keys, providers := FileItems(ops, keys, providers, b0.accepted, cp, p.cidrs);
      assert b0 == Built(b0.keys, b0.providers, b0.accepted);
      keys, providers := FileItems(ops, keys, providers, b1.accepted, cp, p.domains);
      assert b1 == Built(b1.keys, b1.providers, b1.accepted);
      i := i + 1;
    }
    assert data[..i] == data;
  }

  /** Every list in the map holds exactly the providers of the items accepted under its key. */
  lemma {:induction false} FoldUnder(ops: RadixOps, items: seq<(CloudProvider, string)>, n: string)
    ensures var b := Fold(ops, items);
      (n in b.providers <==> Under(b.accepted, n) != []) &&
      (n in b.providers ==> b.providers[n] == Under(b.accepted, n))
  {
    if items != [] {
      var init := items[..|items| - 1];
      FoldUnder(ops, init, n);
      var b0 := Fold(ops, init);
      var b := Fold(ops, items);
      if b.accepted != b0.accepted {
        assert b.accepted[..|b.accepted| - 1] == b0.accepted;
      }
    }
  }

  /** Every accepted item is one of the input items (so every listed provider comes from the input). */
  lemma {:induction false} FoldAccepted(ops: RadixOps, items: seq<(CloudProvider, string)>)
    ensures |Fold(ops, items).accepted| <= |items|
    ensures forall k :: 0 <= k < |Fold(ops, items).accepted| ==>
      exists i :: 0 <= i < |items| && items[i].0 == Fold(ops, items).accepted[k].1
  {
    if items != [] {
      var init := items[..|items| - 1];
      FoldAccepted(ops, init);
      var a0 := Fold(ops, init).accepted;
      var a := Fold(ops, items).accepted;
      forall k | 0 <= k < |a| ensures exists i :: 0 <= i < |items| && items[i].0 == a[k].1 {
        if k < |a0| {
          assert a[k] == a0[k];
          var i :| 0 <= i < |init| && init[i].0 == a0[k].1;
          assert items[i] == init[i];
        } else {
          assert items[|items| - 1].0 == a[k].1;
        }
      }
    }
  }

  /**
   * The same item listed twice is filed twice: the first time `get` misses
   * and `insert` files it under `n`, the second time `get` finds `n`.
   * Nothing is deduplicated.
   */
  lemma NoDedup(ops: RadixOps, p: CloudProvider, cidr: string, n: string)
    requires ops.get({}, cidr) == None && ops.insert({}, cidr) == Inserted(n) && ops.get({n}, cidr) == Some(n)
    ensures Fold(ops, [(p, cidr), (p, cidr)]).providers == map[n := [p, p]]
  {
    var x := (p, cidr);
    var empty := Built({}, map[], []);
    assert [x, x][..1] == [x] && [x][..0] == [];
    assert FoldFrom(ops, empty, [x][..0]) == empty;
    var one := FoldFrom(ops, empty, [x]);
    assert one == Step(ops, empty, x);
    assert Normalise(ops, {}, cidr) == Some(n);
    assert [] + [p] == [p] && [p] + [p] == [p, p];
    assert one.providers == map[n := [p]];
    assert one.keys == {n};
    assert Normalise(ops, one.keys, cidr) == Some(n);
    assert FoldFrom(ops, empty, [x, x]) == Step(ops, one, x);
  }

  // ------------------------------------------------------------------ state machine

  /** `lookup` on loaded data: the list under the key `get` returns, or nothing. */
  function LookupIn(ops: RadixOps, keys: set<string>, providers: ProvidersMap, target: string): (r: seq<CloudProvider>)
    ensures ops.get(keys, target).None? ==> r == []
    ensures ops.get(keys, target).Some? && ops.get(keys, target).value !in providers ==> r == []
    ensures ops.get(keys, target).Some? && ops.get(keys, target).value in providers ==>
      r == providers[ops.get(keys, target).value]
  {
    match ops.get(keys, target)
    case None => []
    case Some(n) => if n in providers then providers[n] else []
  }

  /**
   * The text `load_json_data` returns and whether it came from the network:
   * a refresh, or a cache file that cannot be read, goes to the network.
   */
  function LoadedData(w: World, needsRefresh: bool): (r: Result<(string, bool), LoadError>)
    ensures r.Success? && r.value.1 ==> w.network == Some(r.value.0)
    ensures r.Success? && !r.value.1 ==> !needsRefresh && w.cacheFile == Some(r.value.0)
    ensures r.Failure? <==> (needsRefresh || w.cacheFile.None?) && w.network.None?
  {
    if needsRefresh || w.cacheFile.None? then
      if w.network.Some? then Success((w.network.value, true)) else Failure(FetchFailed)
    else Success((w.cacheFile.value, false))
  }

  class CloudCheck {
    var radix: Option<set<string>>
    var providers: Option<ProvidersMap>
    var lastFetch: Option<int>

    /** The radix and the map are replaced together. */
    ghost predicate Valid()
      reads this
    {
      radix.Some? <==> providers.Some?
    }

    constructor ()
      ensures radix == None && providers == None && lastFetch == None && Valid()
    {
      radix := None;
      providers := None;
      lastFetch := None;
    }

    /**
     * `load_json_data`: on refresh, fetch from the network (fresh); else read
     * the cache file, setting `last_fetch` to the read time only if unset;
     * a failed read falls back to the network and counts as fresh.
     */
    method LoadJsonData(w: World, needsRefresh: bool) returns (r: Result<(string, bool), LoadError>)
      modifies this
      ensures r == LoadedData(w, needsRefresh)
      ensures radix == old(radix) && providers == old(providers)
      ensures lastFetch == if r.Success? && !r.value.1 && old(lastFetch).None? then Some(w.readTime) else old(lastFetch)
    {
      if needsRefresh {
        if w.network.None? { return Failure(FetchFailed); }
        return Success((w.network.value, true));
      }
      match w.cacheFile {
        case Some(data) =>
          if lastFetch.None? {
            lastFetch := Some(w.readTime);
          }
          return Success((data, false));
        case None =>
          if w.network.None? { return Failure(FetchFailed); }
          return Success((w.network.value, true));
      }
    }

    /**
     * `ensure_loaded`: returns early, changing nothing, when data is loaded
     * and fresh; otherwise loads and rebuilds, keeping the old data on any
     * error, and stamps `last_fetch` with the start time after a fresh fetch.
     */
    method EnsureLoaded(w: World, ops: RadixOps, decode: string -> Option<seq<ProviderData>>) returns (r: Result<(), LoadError>)
      requires Valid()
      modifies this
      ensures Valid()
      ensures var needs := NeedsRefresh(LastFetchTime(old(lastFetch), w.stat), w.now);
        w.homeSet && old(radix).Some? && !needs ==> r == Success(()) && unchanged(this)
      ensures var needs := NeedsRefresh(LastFetchTime(old(lastFetch), w.stat), w.now);
        var loaded := LoadedData(w, needs);
        r.Failure? <==> !w.homeSet || ((old(radix).None? || needs) &&
                                       (loaded.Failure? || decode(loaded.value.0).None?))
      ensures r.Failure? ==> radix == old(radix) && providers == old(providers)
      ensures var needs := NeedsRefresh(LastFetchTime(old(lastFetch), w.stat), w.now);
        var loaded := LoadedData(w, needs);
        r.Failure? ==> lastFetch == (if w.homeSet && (old(radix).None? || needs) && loaded.Success? && !loaded.value.1 && old(lastFetch).None?
                                     then Some(w.readTime) else old(lastFetch))
      ensures var needs := NeedsRefresh(LastFetchTime(old(lastFetch), w.stat), w.now);
        var loaded := LoadedData(w, needs);
        r.Success? && (old(radix).None? || needs) ==>
          && loaded.Success? && decode(loaded.value.0).Some?
          && radix == Some(Fold(ops, Items(decode(loaded.value.0).value)).keys)
          && providers == Some(Fold(ops, Items(decode(loaded.value.0).value)).providers)
          && lastFetch == (if loaded.value.1 then Some(w.now)
                           else if old(lastFetch).None? then Some(w.readTime) else old(lastFetch))
    {
      if !w.homeSet {
        return Failure(NoHome);
      }
      var last := LastFetchTime(lastFetch, w.stat);
      var needs := NeedsRefresh(last, w.now);
      if radix.Some? && !needs {
        return Success(());
      }
      var loaded := LoadJsonData(w, needs);
      if loaded.Failure? {
        return Failure(loaded.error);
      }
      var (data, fromNetwork) := loaded.value;
      var decoded := decode(data);
      if decoded.None? {
        return Failure(DecodeFailed);
      }
      var keys, index := BuildDataStructures(ops, decoded.value);
      radix := Some(keys);
      providers := Some(index);
      if fromNetwork {
        lastFetch := Some(w.now);
      }
      return Success(());
    }

    /** `lookup(target)`: load if needed, then look the target up. */
    method Lookup(w: World, ops: RadixOps, decode: string -> Option<seq<ProviderData>>, target: string)
      returns (r: Result<seq<CloudProvider>, LoadError>)
      requires Valid()
      modifies this
      ensures Valid()
      ensures var needs := NeedsRefresh(LastFetchTime(old(lastFetch), w.stat), w.now);
        w.homeSet && old(radix).Some? && !needs ==>
          && unchanged(this)
          && r == Success(LookupIn(ops, old(radix).value, old(providers).value, target))
      ensures var needs := NeedsRefresh(LastFetchTime(old(lastFetch), w.stat), w.now);
        var loaded := LoadedData(w, needs);
        r.Failure? <==> !w.homeSet || ((old(radix).None? || needs) &&
                                       (loaded.Failure? || decode(loaded.value.0).None?))
      ensures r.Failure? ==> radix == old(radix) && providers == old(providers)
      ensures var needs := NeedsRefresh(LastFetchTime(old(lastFetch), w.stat), w.now);
        var loaded := LoadedData(w, needs);
        r.Failure? ==> lastFetch == (if w.homeSet && (old(radix).None? || needs) && loaded.Success? && !loaded.value.1 && old(lastFetch).None?
                                     then Some(w.readTime) else old(lastFetch))
      ensures var needs := NeedsRefresh(LastFetchTime(old(lastFetch), w.stat), w.now);
        var loaded := LoadedData(w, needs);
        r.Success? && (old(radix).None? || needs) ==>
          && loaded.Success? && decode(loaded.value.0).Some?
          && radix == Some(Fold(ops, Items(decode(loaded.value.0).value)).keys)
          && providers == Some(Fold(ops, Items(decode(loaded.value.0).value)).providers)
          && lastFetch == (if loaded.value.1 then Some(w.now)
                           else if old(lastFetch).None? then Some(w.readTime) else old(lastFetch))
      ensures r.Success? ==>
        radix.Some? && providers.Some? && r.value == LookupIn(ops, radix.value, providers.value, target)
    {
      var loaded := EnsureLoaded(w, ops, decode);
      if loaded.Failure? {
        return Failure(loaded.error);
      }
      return Success(LookupIn(ops, radix.value, providers.value, target));
    }
  }
}
