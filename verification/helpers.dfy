/**
 * Supernet enumeration (`ip_network_parents` in cloudcheck/helpers.py): the
 * networks that contain a given network, from the one just above it (or the
 * network itself) down to the `/0` network of its IP version.
 */
module Helpers {
  import opened Wrappers
  import opened IpNet

  /** First prefix length yielded; `-1` when nothing is yielded. */
  function StartLen(n: Network, includeSelf: bool): int
  {
    if includeSelf then n.prefixlen else n.prefixlen - 1
  }

  /**
   * The parents of a parsed network, prefix lengths `StartLen` down to `0`.
   */
  function Parents(n: Network, includeSelf: bool): (r: seq<Network>)
    requires WellFormed(n)
    ensures |r| == n.prefixlen + (if includeSelf then 1 else 0)
    ensures forall j :: 0 <= j < |r| ==>
      Canonical(r[j]) && r[j].version == n.version && Covers(r[j], n)
    ensures forall j :: 0 <= j < |r| ==>
      r[j].prefixlen < n.prefixlen || (includeSelf && j == 0 && r[j].prefixlen == n.prefixlen)
    ensures forall i, j :: 0 <= i < j < |r| ==> r[i].prefixlen > r[j].prefixlen
    ensures |r| > 0 ==> r[|r| - 1] == Network(n.version, Zeros(Width(n.version)), 0)
    ensures includeSelf ==> r[0] == Supernet(n, n.prefixlen)
    ensures includeSelf && Canonical(n) ==> r[0] == n
  {
    var start := StartLen(n, includeSelf);
    var r := seq(start + 1, j requires 0 <= j < start + 1 => Supernet(n, start - j));
    assert forall j :: 0 <= j < |r| ==> r[j].prefixlen == start - j;
    assert includeSelf && Canonical(n) ==> r[0] == n by {
      if includeSelf && Canonical(n) { CanonicalUnique(n, n); }
    }
    r
  }

  /**
   * Every canonical network of the same version strictly shorter than `n`
   * that contains `n` is among its parents (and with `includeSelf`, `n`'s
   * own canonical form is too).
   */
  lemma ParentsComplete(n: Network, includeSelf: bool, m: Network)
    requires WellFormed(n) && Canonical(m) && Covers(m, n)
    requires m.prefixlen < n.prefixlen || includeSelf
    ensures m in Parents(n, includeSelf)
  {
    var r := Parents(n, includeSelf);
    var j := StartLen(n, includeSelf) - m.prefixlen;
    CanonicalUnique(m, n);
    assert r[j] == m;
  }

  /** `ip_network_parents(ip, include_self)`: the input is read non-strictly. */
  function IpNetworkParents(t: IpText, includeSelf: bool): (r: Result<seq<Network>, IpError>)
    ensures r.Failure? <==> !TextValid(t)
    ensures r.Success? ==> r.value == Parents(IpNetwork(t, false).value, includeSelf)
  {
    match IpNetwork(t, false)
    case Failure(e) => Failure(e)
    case Success(n) => Success(Parents(n, includeSelf))
  }

  /** The docstring's example: the first parent of 192.168.1.1 is 192.168.1.0/31. */
  lemma FirstParentExample()
    ensures var r := IpNetworkParents(AddrText(V4, Ipv4(192, 168, 1, 1)), false);
      r.Success? && |r.value| == 32 &&
      r.value[0] == Network(V4, Ipv4(192, 168, 1, 0), 31) &&
      r.value[31] == Network(V4, Zeros(32), 0)
  {
    var b := Ipv4(192, 168, 1, 1);
    var n := Network(V4, b, 32);
    assert IpNetwork(AddrText(V4, b), false) == Success(n);
    var p := Parents(n, false);
    assert p[0] == Supernet(n, 31);
    assert Bits(1, 8) == Bits(0, 7) + [true];
    assert Bits(0, 8) == Bits(0, 7) + [false];
    assert Mask(b, 31) == Ipv4(192, 168, 1, 0);
  }

  /** A host-bits-set network is masked, not rejected. */
  lemma NonStrictMasks(v: Version, bits: seq<bool>, p: nat)
    requires |bits| == Width(v) && p <= Width(v)
    ensures var r := IpNetworkParents(NetText(v, bits, p), true);
      r.Success? && |r.value| == p + 1 && r.value[0] == Network(v, Mask(bits, p), p)
  {
  }

  /** A `/0` input has no proper parents. */
  lemma ZeroPrefixHasNoParents(n: Network)
    requires WellFormed(n) && n.prefixlen == 0
    ensures Parents(n, false) == []
  {
  }
}
