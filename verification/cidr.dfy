/**
 * `CidrRanges` (cloudcheck/cidr.py): a set of networks parsed strictly from
 * range strings, answering whether a network is one of them or an address
 * lies inside one of them.
 */
module Cidr {
  import opened Wrappers
  import opened IpNet
  import opened Helpers

  /** What `in` is asked about: a network object, or anything `ip_address` reads. */
  datatype Query = NetworkQuery(net: Network) | AddressQuery(text: IpText)

  /**
   * Strict parse of every range, in order; the first range that does not
   * parse is the error raised.
   */
  function ParseRanges(ranges: seq<IpText>): (r: Result<set<Network>, IpError>)
    ensures r.Success? <==> forall i :: 0 <= i < |ranges| ==> IpNetwork(ranges[i], true).Success?
    ensures r.Success? ==> r.value == set i | 0 <= i < |ranges| :: IpNetwork(ranges[i], true).value
    ensures r.Success? ==> forall n :: n in r.value ==> Canonical(n)
    ensures r.Failure? ==> exists i :: 0 <= i < |ranges| && IpNetwork(ranges[i], true) == Failure(r.error)
  {
    if ranges == [] then Success({})
    else
      match IpNetwork(ranges[0], true)
      case Failure(e) => Failure(e)
      case Success(n) =>
        match ParseRanges(ranges[1..])
        case Failure(e) =>
          Failure(e)
        case Success(s) =>
          assert forall i :: 1 <= i < |ranges| ==> ranges[i] == ranges[1..][i - 1];
          ghost var all := set i | 0 <= i < |ranges| :: IpNetwork(ranges[i], true).value;
          assert all == {n} + s by {
            forall x | x in {n} + s ensures x in all {
              if x != n {
                var i :| 0 <= i < |ranges[1..]| && x == IpNetwork(ranges[1..][i], true).value;
                assert x == IpNetwork(ranges[i + 1], true).value;
              }
            }
          }
          Success({n} + s)
  }

  /** The address query's answer: a stored network shorter than full width holds `a`. */
  predicate AddressIn(cidrs: set<Network>, a: Address)
  {
    exists n :: n in cidrs && n.prefixlen < Width(n.version) && Contains(n, a)
  }

  class CidrRanges {
    var cidrs: set<Network>

    ghost predicate Valid()
      reads this
    {
      forall n :: n in cidrs ==> Canonical(n)
    }

    constructor Empty()
      ensures cidrs == {} && Valid()
    {
      cidrs := {};
    }

    /**
     * `ip in ranges`: a network is looked up as a whole block; anything else
     * is read as an address and its proper supernets are tried from the
     * longest down, so a stored full-width network never matches.
     */
    method Contains(q: Query) returns (r: Result<bool, IpError>)
      requires Valid()
      ensures q.NetworkQuery? ==> r == Success(q.net in cidrs)
      ensures q.AddressQuery? ==> (r.Failure? <==> IpAddress(q.text).Failure?)
      ensures q.AddressQuery? && r.Success? ==> r.value == AddressIn(cidrs, IpAddress(q.text).value)
    {
      if q.NetworkQuery? {
        return Success(q.net in cidrs);
      }
      var parsed := IpAddress(q.text);
      if parsed.Failure? {
        return Failure(parsed.error);
      }
      var a := parsed.value;
      var host := HostNetwork(a);
      var parents := Parents(host, false);
      var i := 0;
      while i < |parents|
        invariant 0 <= i <= |parents|
        invariant forall k :: 0 <= k < i ==> parents[k] !in cidrs
      {
        if parents[i] in cidrs {
          CoversContains(parents[i], host, a);
          return Success(true);
        }
        i := i + 1;
      }
      forall n | n in cidrs && n.prefixlen < Width(n.version) && IpNet.Contains(n, a)
        ensures false
      {
        assert Covers(n, host);
        ParentsComplete(host, false, n);
      }
      return Success(false);
    }
  }

  /**
   * `CidrRanges(ranges)`: each range is parsed strictly and added to
   * `cidrs`; the first range that does not parse aborts construction.
   */
  method NewCidrRanges(ranges: seq<IpText>) returns (r: Result<CidrRanges, IpError>)
    ensures r.Failure? ==> ParseRanges(ranges) == Failure(r.error)
    ensures r.Success? ==> fresh(r.value) && r.value.Valid() && ParseRanges(ranges) == Success(r.value.cidrs)
  {
    var c := new CidrRanges.Empty();
    var i := 0;
    while i < |ranges|
      invariant 0 <= i <= |ranges|
      invariant ParseRanges(ranges[..i]).Success? && c.cidrs == ParseRanges(ranges[..i]).value
      invariant c.Valid()
    {
      var n := IpNetwork(ranges[i], true);
      if n.Failure? {
        ParsePrefixThenFailure(ranges, i);
        return Failure(n.error);
      }
      c.cidrs := c.cidrs + {n.value};
      ParseExtend(ranges, i);
      i := i + 1;
    }
    assert ranges[..i] == ranges;
    return Success(c);
  }

  lemma {:induction false} ParsePrefixThenFailure(ranges: seq<IpText>, i: nat)
    requires i < |ranges| && ParseRanges(ranges[..i]).Success?
    requires IpNetwork(ranges[i], true).Failure?
    ensures ParseRanges(ranges) == Failure(IpNetwork(ranges[i], true).error)
  {
    if i > 0 {
      assert ranges[..i][0] == ranges[0];
      assert ranges[1..][..i - 1] == ranges[..i][1..];
      ParsePrefixThenFailure(ranges[1..], i - 1);
    }
  }

  lemma {:induction false} ParseExtend(ranges: seq<IpText>, i: nat)
    requires i < |ranges| && ParseRanges(ranges[..i]).Success?
    requires IpNetwork(ranges[i], true).Success?
    ensures ParseRanges(ranges[..i + 1]) == Success(ParseRanges(ranges[..i]).value + {IpNetwork(ranges[i], true).value})
  {
    var n := IpNetwork(ranges[i], true).value;
    if i == 0 {
      ParseFront(ranges, 1);
      assert ranges[1..][..0] == [];
      assert ranges[..0] == [];
      assert ParseRanges(ranges[..0]).value + {n} == {n} + {};
    } else {
      var t := ranges[1..];
      assert t[i - 1] == ranges[i];
      ParseFront(ranges, i);
      ParseFront(ranges, i + 1);
      ParseExtend(t, i - 1);
      var n0 := IpNetwork(ranges[0], true).value;
      var b := ParseRanges(t[..i - 1]).value;
      assert {n0} + (b + {n}) == ({n0} + b) + {n};
    }
  }

  /** A non-empty prefix parses as its first range next to the rest. */
  lemma ParseFront(ranges: seq<IpText>, k: nat)
    requires 0 < k <= |ranges|
    ensures ParseRanges(ranges[..k]).Success? <==>
      IpNetwork(ranges[0], true).Success? && ParseRanges(ranges[1..][..k - 1]).Success?
    ensures ParseRanges(ranges[..k]).Success? ==>
      ParseRanges(ranges[..k]).value == {IpNetwork(ranges[0], true).value} + ParseRanges(ranges[1..][..k - 1]).value
  {
    var p := ranges[..k];
    assert p[0] == ranges[0];
    assert p[1..] == ranges[1..][..k - 1];
  }

  /** Duplicate ranges collapse: parsing a list or its doubling gives one set. */
  lemma {:induction false} DuplicatesCollapse(ranges: seq<IpText>)
    ensures ParseRanges(ranges + ranges) == ParseRanges(ranges)
  {
    var d := ranges + ranges;
    assert forall i :: 0 <= i < |ranges| ==> d[i] == ranges[i] && d[i + |ranges|] == ranges[i];
    if ParseRanges(ranges).Success? {
      assert ParseRanges(d).Success?;
      var a := ParseRanges(d).value;
      var b := ParseRanges(ranges).value;
      forall x | x in a ensures x in b {
        var i :| 0 <= i < |d| && x == IpNetwork(d[i], true).value;
        if i >= |ranges| { assert x == IpNetwork(ranges[i - |ranges|], true).value; }
        else { assert x == IpNetwork(ranges[i], true).value; }
      }
      forall x | x in b ensures x in a {
        var i :| 0 <= i < |ranges| && x == IpNetwork(ranges[i], true).value;
        assert x == IpNetwork(d[i], true).value;
      }
      assert a == b;
    } else {
      var i :| 0 <= i < |ranges| && IpNetwork(ranges[i], true).Failure?;
      assert IpNetwork(d[i], true).Failure?;
      assert ParseRanges(d).Failure?;
      FirstFailure(ranges, d);
    }
  }

  /** The error reported is that of the first range that fails. */
  lemma {:induction false} FirstFailure(ranges: seq<IpText>, d: seq<IpText>)
    requires |ranges| <= |d| && d[..|ranges|] == ranges
    requires ParseRanges(ranges).Failure?
    ensures ParseRanges(d) == ParseRanges(ranges)
  {
    assert ranges != [];
    assert d[0] == ranges[0];
    if IpNetwork(ranges[0], true).Success? {
      assert d[1..][..|ranges| - 1] == ranges[1..];
      FirstFailure(ranges[1..], d[1..]);
    }
  }

  /** A range with host bits set is refused by the strict parse. */
  lemma HostBitsRejected(v: Version, bits: seq<bool>, p: nat, k: nat)
    requires |bits| == Width(v) && p <= k < Width(v) && bits[k]
    ensures ParseRanges([NetText(v, bits, p)]) == Failure(HostBitsSet)
  {
  }

  /**
   * A stored network equal to an address's own full-width network does not
   * make the address match: the parents tried exclude the address's own
   * network, so only proper supernets are looked up.
   */
  lemma NoSelfMatch(a: Address)
    requires ValidAddress(a)
    ensures HostNetwork(a) !in Parents(HostNetwork(a), false)
    ensures !AddressIn({HostNetwork(a)}, a)
  {
  }
}
