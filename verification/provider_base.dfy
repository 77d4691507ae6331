/**
 * `BaseCloudProvider` (cloudcheck/providers/base.py): a provider's `ranges`
 * set, the radix of everything inserted for it (networks and lower-cased
 * domains), its `last_updated` time, the refresh step and the JSON record it
 * writes out.
 *
 * The radix is the set of keys inserted into it; its search is not part of
 * this model. `make_ip_type` (cloudcheck/helpers.py, not part of this model)
 * is the parameter `mk`, and `str(network)` is the parameter `render`.
 */
module ProviderBase {
  import opened Wrappers
  import opened IpNet
  import opened Text
  import opened Sorting
  import opened Cidr

  /** What `update_ranges` is handed: network objects, or strings a parser returned. */
  datatype RangeItem = NetItem(net: Network) | TextItem(text: string)

  /** A key inserted into the radix. */
  datatype RadixKey = NetKey(net: Network) | DomainKey(domain: string)

  /** The class attributes a provider subclass sets. */
  datatype ProviderClass = ProviderClass(name: string, domains: seq<string>, ipsUrl: string, asns: seq<int>)

  /** The JSON record `CloudProviderJSON(**j)` is built from (the fields this model keeps). */
  datatype RawJson = RawJson(domains: seq<string>, cidrs: seq<IpText>, lastUpdated: int)

  /** `CloudProviderJSON` once built: `cidrs` are network objects. */
  datatype ProviderJson = ProviderJson(domains: seq<string>, cidrs: seq<Network>, lastUpdated: int)

  /** The record `to_json` returns (the fields this model keeps). */
  datatype ProviderRecord = ProviderRecord(
    name: string, domains: seq<string>, cidrs: seq<string>,
    lastUpdated: int, ipsUrl: string, asns: seq<int>)

  /** What the refresh step obtained from `ips_url`. */
  datatype Fetched = FetchRaised | Parsed(items: seq<RangeItem>)

  /**
   * The `cidrs` validator: every value is read as a network without
   * `strict`, so host bits are cleared; the first value that is not a
   * network fails validation.
   */
  function ValidateCidrs(values: seq<IpText>): (r: Result<seq<Network>, IpError>)
    ensures r.Success? <==> forall i :: 0 <= i < |values| ==> TextValid(values[i])
    ensures r.Success? ==> |r.value| == |values|
    ensures r.Success? ==> forall i :: 0 <= i < |values| ==>
      Canonical(r.value[i]) && r.value[i].prefixlen == TextPrefix(values[i]) &&
      r.value[i].bits[..r.value[i].prefixlen] == values[i].bits[..r.value[i].prefixlen]
    ensures r.Success? ==> forall i :: 0 <= i < |values| ==> r.value[i] == IpNetwork(values[i], false).value
    ensures r.Failure? ==> exists i :: 0 <= i < |values| && IpNetwork(values[i], false) == Failure(r.error)
  {
    if values == [] then Success([])
    else
      match IpNetwork(values[0], false)
      case Failure(e) => Failure(e)
      case Success(n) =>
        match ValidateCidrs(values[1..])
        case Failure(e) =>
          var i :| 0 <= i < |values[1..]| && IpNetwork(values[1..][i], false) == Failure(e);
          assert IpNetwork(values[i + 1], false) == Failure(e);
          Failure(e)
        case Success(ns) =>
          assert forall i :: 1 <= i < |values| ==> values[i] == values[1..][i - 1];
          Success([n] + ns)
  }

  /** The text forms of networks. */
  function Texts(ns: seq<Network>): (ts: seq<IpText>)
    ensures |ts| == |ns| && forall i :: 0 <= i < |ns| ==> ts[i] == AsText(ns[i])
  {
    if ns == [] then [] else [AsText(ns[0])] + Texts(ns[1..])
  }

  /** Canonical networks validate to themselves. */
  lemma {:induction false} ValidateRoundTrip(ns: seq<Network>)
    requires forall i :: 0 <= i < |ns| ==> Canonical(ns[i])
    ensures ValidateCidrs(Texts(ns)) == Success(ns)
  {
    if ns != [] {
      ValidateRoundTrip(ns[1..]);
      AsTextRoundTrip(ns[0], false);
      ValidateCons(AsText(ns[0]), Texts(ns[1..]), ns[0], ns[1..]);
      assert ns == [ns[0]] + ns[1..];
    }
  }

  /** Validation of one more value in front. */
  lemma ValidateCons(t: IpText, ts: seq<IpText>, n: Network, ns: seq<Network>)
    requires IpNetwork(t, false) == Success(n) && ValidateCidrs(ts) == Success(ns)
    ensures ValidateCidrs([t] + ts) == Success([n] + ns)
  {
    assert ([t] + ts)[1..] == ts;
  }

  /** A network with host bits set is masked, not rejected. */
  lemma ValidateMasks(v: Version, bits: seq<bool>, p: nat)
    requires |bits| == Width(v) && p <= Width(v)
    ensures ValidateCidrs([NetText(v, bits, p)]) == Success([Network(v, Mask(bits, p), p)])
  {
    var t := NetText(v, bits, p);
    assert [t][1..] == [];
    assert IpNetwork(t, false).value.bits == Mask(bits, p) by {
      var m := IpNetwork(t, false).value.bits;
      forall k | 0 <= k < |m| ensures m[k] == Mask(bits, p)[k] {
        if k < p { assert m[k] == m[..p][k] && Mask(bits, p)[k] == Mask(bits, p)[..p][k]; }
      }
    }
    var n := IpNetwork(t, false).value;
    assert n == Network(v, Mask(bits, p), p);
    assert ValidateCidrs([t][1..]) == Success([]);
    assert [n] + [] == [n];
    assert ValidateCidrs([t]) == Success([n]);
  }

  /**
   * The type check of the `cidrs` field (`IPv4Network | IPv6Network`), which
   * runs before the validator: each value is read strictly, so a value with
   * host bits set is refused; the first value refused fails the record.
   */
  function TypedNetworks(values: seq<IpText>): (r: Result<seq<Network>, IpError>)
    ensures r.Success? <==> forall i :: 0 <= i < |values| ==> IpNetwork(values[i], true).Success?
    ensures r.Success? ==> |r.value| == |values|
    ensures r.Success? ==> forall i :: 0 <= i < |values| ==> r.value[i] == IpNetwork(values[i], true).value
    ensures r.Failure? ==> exists i :: 0 <= i < |values| && IpNetwork(values[i], true) == Failure(r.error)
  {
    if values == [] then Success([])
    else
      match IpNetwork(values[0], true)
      case Failure(e) => Failure(e)
      case Success(n) =>
        match TypedNetworks(values[1..])
        case Failure(e) =>
          var i :| 0 <= i < |values[1..]| && IpNetwork(values[1..][i], true) == Failure(e);
          assert IpNetwork(values[i + 1], true) == Failure(e);
          Failure(e)
        case Success(ns) =>
          assert forall i :: 1 <= i < |values| ==> values[i] == values[1..][i - 1];
          Success([n] + ns)
  }

  /**
   * `CloudProviderJSON(**j)`: the field's type check, then the `cidrs`
   * validator over the network objects it produced.
   */
  function ReadJson(raw: RawJson): (r: Result<ProviderJson, IpError>)
    ensures r.Success? <==> forall i :: 0 <= i < |raw.cidrs| ==> IpNetwork(raw.cidrs[i], true).Success?
    ensures r.Failure? ==> exists i :: 0 <= i < |raw.cidrs| && IpNetwork(raw.cidrs[i], true) == Failure(r.error)
    ensures r.Success? ==> r.value.domains == raw.domains && r.value.lastUpdated == raw.lastUpdated
    ensures r.Success? ==> |r.value.cidrs| == |raw.cidrs|
    ensures r.Success? ==> forall i :: 0 <= i < |raw.cidrs| ==> r.value.cidrs[i] == IpNetwork(raw.cidrs[i], true).value
  {
    match TypedNetworks(raw.cidrs)
    case Failure(e) => Failure(e)
    case Success(typed) =>
      ValidateRoundTrip(typed);
      Success(ProviderJson(raw.domains, ValidateCidrs(Texts(typed)).value, raw.lastUpdated))
  }

  /**
   * A JSON cidr with host bits set makes construction raise: the type check
   * refuses it before the validator's non-strict read could mask it.
   */
  lemma HostBitsRefusedInJson(domains: seq<string>, v: Version, bits: seq<bool>, p: nat, k: nat, t: int)
    requires |bits| == Width(v) && p <= k < Width(v) && bits[k]
    ensures ReadJson(RawJson(domains, [NetText(v, bits, p)], t)) == Failure(HostBitsSet)
    ensures ValidateCidrs([NetText(v, bits, p)]).Success?
  {
    ValidateMasks(v, bits, p);
  }

  /** What `make_ip_type` makes of a sequence of range items. */
  function Normalised(items: seq<RangeItem>, mk: RangeItem -> Network): set<Network>
  {
    set i | 0 <= i < |items| :: mk(items[i])
  }

  function NetItems(ns: seq<Network>): (items: seq<RangeItem>)
    ensures |items| == |ns| && forall i :: 0 <= i < |ns| ==> items[i] == NetItem(ns[i])
  {
    seq(|ns|, i requires 0 <= i < |ns| => NetItem(ns[i]))
  }

  function NetKeys(ns: set<Network>): set<RadixKey>
  {
    set n | n in ns :: NetKey(n)
  }

  function DomainKeys(ds: seq<string>): set<RadixKey>
  {
    set i | 0 <= i < |ds| :: DomainKey(ds[i])
  }

  /** The domains seeded at construction: class and JSON domains, lower-cased. */
  function SeedDomains(classDomains: seq<string>, jsonDomains: seq<string>): set<RadixKey>
  {
    set d | d in classDomains + jsonDomains :: DomainKey(Lower(d))
  }

  function LowerAll(ds: seq<string>): (r: seq<string>)
    ensures |r| == |ds| && forall i :: 0 <= i < |ds| ==> r[i] == Lower(ds[i])
  {
    seq(|ds|, i requires 0 <= i < |ds| => Lower(ds[i]))
  }

  /** Lower-casing any listing of the distinct domains inserts exactly the seed keys. */
  lemma SeedKeys(distinct: seq<string>, classDomains: seq<string>, jsonDomains: seq<string>)
    requires forall d :: d in distinct <==> d in classDomains + jsonDomains
    ensures DomainKeys(LowerAll(distinct)) == SeedDomains(classDomains, jsonDomains)
  {
    var l := LowerAll(distinct);
    forall k | k in SeedDomains(classDomains, jsonDomains) ensures k in DomainKeys(l) {
      var d :| d in classDomains + jsonDomains && k == DomainKey(Lower(d));
      var i :| 0 <= i < |distinct| && distinct[i] == d;
      assert k == DomainKey(l[i]);
    }
  }

  /** Adding the same items twice is adding them once. */
  lemma AddRangesIdempotent(ranges: set<Network>, items: seq<RangeItem>, mk: RangeItem -> Network)
    ensures ranges + Normalised(items, mk) + Normalised(items, mk) == ranges + Normalised(items, mk)
  {
  }

  class BaseCloudProvider {
    const name: string
    const classDomains: seq<string>
    const ipsUrl: string
    const asns: seq<int>
    var ranges: set<Network>
    var radix: set<RadixKey>
    var lastUpdated: Option<int>   // `None`: the attribute was never set

    /**
     * `__init__(j)`: with JSON, the lower-cased domains and the JSON cidrs go
     * into the radix, the cidrs into `ranges`, and `last_updated` is copied.
     */
    constructor (cls: ProviderClass, j: Option<ProviderJson>, mk: RangeItem -> Network)
      ensures name == cls.name && classDomains == cls.domains && ipsUrl == cls.ipsUrl && asns == cls.asns
      ensures j.None? ==> ranges == {} && radix == {} && lastUpdated == None
      ensures j.Some? ==>
        && ranges == Normalised(NetItems(j.value.cidrs), mk)
        && radix == SeedDomains(cls.domains, j.value.domains) + NetKeys(Normalised(NetItems(j.value.cidrs), mk))
        && lastUpdated == Some(j.value.lastUpdated)
    {
      name := cls.name;
      classDomains := cls.domains;
      ipsUrl := cls.ipsUrl;
      asns := cls.asns;
      ranges := {};
      radix := {};
      lastUpdated := None;
      new;
      if j.Some? {
        var p := j.value;
        var distinct := ListOf(set d | d in cls.domains + p.domains);
        SeedKeys(distinct, cls.domains, p.domains);
        UpdateDomains(LowerAll(distinct));
        UpdateRanges(NetItems(p.cidrs), mk);
        lastUpdated := Some(p.lastUpdated);
      }
    }

    /** `update_ranges`: each item, normalised, joins `ranges` and the radix. */
    method UpdateRanges(items: seq<RangeItem>, mk: RangeItem -> Network)
      modifies this
      ensures ranges == old(ranges) + Normalised(items, mk)
      ensures radix == old(radix) + NetKeys(Normalised(items, mk))
      ensures lastUpdated == old(lastUpdated)
    {
      var i := 0;
      while i < |items|
        invariant 0 <= i <= |items|
        invariant ranges == old(ranges) + Normalised(items[..i], mk)
        invariant radix == old(radix) + NetKeys(Normalised(items[..i], mk))
        invariant lastUpdated == old(lastUpdated)
      {
        var r := mk(items[i]);
        ranges := ranges + {r};
        radix := radix + {NetKey(r)};
        assert Normalised(items[..i + 1], mk) == Normalised(items[..i], mk) + {r} by {
          assert forall k :: 0 <= k < i ==> items[..i + 1][k] == items[..i][k];
          assert items[..i + 1][i] == items[i];
        }
        i := i + 1;
      }
      assert items[..i] == items;
    }

    /** `update_domains`: each domain is inserted into the radix as given. */
    method UpdateDomains(domains: seq<string>)
      modifies this
      ensures radix == old(radix) + DomainKeys(domains)
      ensures ranges == old(ranges) && lastUpdated == old(lastUpdated)
    {
      var i := 0;
      while i < |domains|
        invariant 0 <= i <= |domains|
        invariant radix == old(radix) + DomainKeys(domains[..i])
        invariant ranges == old(ranges) && lastUpdated == old(lastUpdated)
      {
        radix := radix + {DomainKey(domains[i])};
        assert DomainKeys(domains[..i + 1]) == DomainKeys(domains[..i]) + {DomainKey(domains[i])} by {
          assert forall k :: 0 <= k < i ==> domains[..i + 1][k] == domains[..i][k];
          assert domains[..i + 1][i] == domains[i];
        }
        i := i + 1;
      }
      assert domains[..i] == domains;
    }

    /**
     * `update()`: `last_updated` is set first and `ranges` replaced by the
     * ASN subnets (which are not inserted into the radix); then, when there
     * is an `ips_url` and its parse gave a non-empty result, those ranges are
     * added. A fetch or parse that raises is swallowed.
     */
    method Update(now: int, subnets: set<Network>, fetched: Fetched, mk: RangeItem -> Network)
      modifies this
      ensures lastUpdated == Some(now)
      ensures var added := if ipsUrl != "" && fetched.Parsed? then Normalised(fetched.items, mk) else {};
        ranges == subnets + added && radix == old(radix) + NetKeys(added)
    ensures var added := if ipsUrl != "" && fetched.Parsed? then Normalised(fetched.items, mk) else {};
      forall n :: NetKey(n) in old(radix) && n !in subnets && n !in added ==>
        NetKey(n) in radix && !Contains(NetworkQuery(n))
    {
      lastUpdated := Some(now);
      ranges := subnets;
      if ipsUrl != "" {
        match fetched
        case FetchRaised =>
        case Parsed(items) =>
          if items != [] {
            UpdateRanges(items, mk);
          }
      }
    }

    /**
     * `ip in provider`, that is `ip in self.ranges`: a set of network objects,
     * so only a network equal to a stored one is found. An address, as an
     * object or a string, never equals a network.
     */
    function Contains(q: Query): (r: bool)
      reads this
      ensures r ==> q.NetworkQuery? && q.net in ranges
      ensures q.NetworkQuery? && q.net in ranges ==> r
    {
      match q
      case NetworkQuery(n) => n in ranges
      case AddressQuery(_) => false
    }

    /**
     * `to_json()`: the class-level domains sorted, the string forms of
     * `ranges` sorted; `None` when `last_updated` was never set (the
     * attribute lookup fails).
     */
    method ToJson(render: Network -> string) returns (r: Option<ProviderRecord>)
      ensures r.None? <==> lastUpdated.None?
      ensures r.Some? ==>
        && r.value.name == name && r.value.ipsUrl == ipsUrl && r.value.asns == asns
        && r.value.lastUpdated == lastUpdated.value
        && multiset(r.value.domains) == multiset(classDomains) && SortedBy(r.value.domains, LexLe)
        && |r.value.cidrs| == |ranges| && SortedBy(r.value.cidrs, LexLe)
        && (forall c :: c in r.value.cidrs <==> exists n :: n in ranges && c == render(n))
      ensures r.Some? ==> exists nets ::
        && Distinct(nets) && (forall n :: n in nets <==> n in ranges)
        && multiset(r.value.cidrs) == multiset(Apply(nets, render))
    {
      if lastUpdated.None? {
        return None;
      }
      LexLeOrder();
      var domains := SortBy(classDomains, LexLe);
      SortByCorrect(classDomains, LexLe);
      var nets := ListOf(ranges);
      var strs := Apply(nets, render);
      var cidrs := SortBy(strs, LexLe);
      SortByCorrect(strs, LexLe);
      forall c ensures c in cidrs <==> exists n :: n in ranges && c == render(n) {
        assert c in cidrs <==> c in multiset(strs);
        if c in strs {
          var i :| 0 <= i < |strs| && strs[i] == c;
          assert nets[i] in ranges;
        }
        if n :| n in ranges && c == render(n) {
          var i :| 0 <= i < |nets| && nets[i] == n;
          assert strs[i] == c;
        }
      }
      assert Distinct(nets) && (forall n :: n in nets <==> n in ranges) && multiset(cidrs) == multiset(Apply(nets, render));
      return Some(ProviderRecord(name, domains, cidrs, lastUpdated.value, ipsUrl, asns));
    }
  }

  /**
   * `BaseCloudProvider(j)` from the JSON as given: building the record
   * raises when a cidr fails its type check, and then no provider exists.
   */
  method NewProvider(cls: ProviderClass, j: Option<RawJson>, mk: RangeItem -> Network)
    returns (r: Result<BaseCloudProvider, IpError>)
    ensures r.Failure? <==> j.Some? && ReadJson(j.value).Failure?
    ensures r.Failure? ==> r.error == ReadJson(j.value).error
    ensures r.Success? ==> fresh(r.value)
    ensures r.Success? ==> r.value.name == cls.name && r.value.ipsUrl == cls.ipsUrl
    ensures r.Success? && j.None? ==> r.value.ranges == {} && r.value.radix == {} && r.value.lastUpdated == None
    ensures r.Success? && j.Some? ==>
      var p := ReadJson(j.value).value;
      && r.value.ranges == Normalised(NetItems(p.cidrs), mk)
      && r.value.radix == SeedDomains(cls.domains, p.domains) + NetKeys(Normalised(NetItems(p.cidrs), mk))
      && r.value.lastUpdated == Some(p.lastUpdated)
  {
    var typed: Option<ProviderJson> := None;
    if j.Some? {
      var read := ReadJson(j.value);
      if read.Failure? {
        return Failure(read.error);
      }
      typed := Some(read.value);
    }
    var provider := new BaseCloudProvider(cls, typed, mk);
    return Success(provider);
  }
}
