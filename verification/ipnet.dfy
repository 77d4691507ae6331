/**
 * IP addresses and networks at bit level, as Python's `ipaddress` module
 * presents them to the code of this repository.
 *
 * An address is its big-endian bit string (32 bits for IPv4, 128 for IPv6).
 * A network is a bit string and a prefix length; it lies in canonical form
 * when every bit past the prefix is clear (section 3.1 of RFC 4632, section
 * 2.3 of RFC 4291). Masking keeps the first `i` bits and clears the rest,
 * and an address belongs to a network when the two agree on the prefix.
 *
 * The textual grammar of addresses is not modelled: `IpText` is what a
 * string or object denotes once read (an address, an address with a prefix
 * length, or something that is not an IP at all). The checks that
 * `ip_network` and `ip_address` then make (bit width, prefix range, host bits
 * under `strict`) are modelled.
 */
module IpNet {
  import opened Wrappers

  datatype Version = V4 | V6

  function Width(v: Version): nat
  {
    if v == V4 then 32 else 128
  }

  datatype Address = Address(version: Version, bits: seq<bool>)

  predicate ValidAddress(a: Address)
  {
    |a.bits| == Width(a.version)
  }

  datatype Network = Network(version: Version, bits: seq<bool>, prefixlen: nat)

  predicate WellFormed(n: Network)
  {
    |n.bits| == Width(n.version) && n.prefixlen <= Width(n.version)
  }

  /** No host bit past the prefix is set. */
  predicate Canonical(n: Network)
  {
    WellFormed(n) && forall k :: n.prefixlen <= k < |n.bits| ==> !n.bits[k]
  }

  function Zeros(k: nat): (z: seq<bool>)
    ensures |z| == k
    ensures forall i :: 0 <= i < k ==> !z[i]
  {
    seq(k, _ => false)
  }

  /** Keeps the first `i` bits and clears the others. */
  function Mask(bits: seq<bool>, i: nat): (m: seq<bool>)
    requires i <= |bits|
    ensures |m| == |bits| && m[..i] == bits[..i]
    ensures forall k :: i <= k < |m| ==> !m[k]
  {
    bits[..i] + Zeros(|bits| - i)
  }

  /** Address `a` lies inside network `n`. */
  predicate Contains(n: Network, a: Address)
  {
    WellFormed(n) && ValidAddress(a) && a.version == n.version &&
    a.bits[..n.prefixlen] == n.bits[..n.prefixlen]
  }

  /** Every address of `inner` lies inside `outer` (`inner.subnet_of(outer)`). */
  predicate Covers(outer: Network, inner: Network)
  {
    WellFormed(outer) && WellFormed(inner) && outer.version == inner.version &&
    outer.prefixlen <= inner.prefixlen &&
    outer.bits[..outer.prefixlen] == inner.bits[..outer.prefixlen]
  }

  /** The network `ip_network(address)` denotes: the address itself at full width. */
  function HostNetwork(a: Address): (n: Network)
    requires ValidAddress(a)
    ensures Canonical(n) && n.prefixlen == Width(a.version)
    ensures forall b: Address :: Contains(n, b) <==> ValidAddress(b) && b == a
  {
    Network(a.version, a.bits, Width(a.version))
  }

  /** `ip_network(f"{n.network_address}/{i}", strict=False)`: the `/i` network around `n`. */
  function Supernet(n: Network, i: nat): (s: Network)
    requires WellFormed(n) && i <= Width(n.version)
    ensures Canonical(s) && s.prefixlen == i && s.version == n.version
    ensures i <= n.prefixlen ==> Covers(s, n)
  {
    Network(n.version, Mask(n.bits, i), i)
  }

  /** Containment is inherited along `Covers`. */
  lemma CoversContains(outer: Network, inner: Network, a: Address)
    requires Covers(outer, inner) && Contains(inner, a)
    ensures Contains(outer, a)
  {
    var p := outer.prefixlen;
    assert a.bits[..p] == a.bits[..inner.prefixlen][..p];
    assert inner.bits[..p] == inner.bits[..inner.prefixlen][..p];
  }

  /** A canonical network is fixed by its prefix length and any network it covers. */
  lemma CanonicalUnique(m: Network, n: Network)
    requires Canonical(m) && Covers(m, n)
    ensures m == Supernet(n, m.prefixlen)
  {
    var p := m.prefixlen;
    var s := Supernet(n, p);
    assert m.bits[..p] == s.bits[..p];
    forall k | 0 <= k < |m.bits|
      ensures m.bits[k] == s.bits[k]
    {
      if k < p {
        assert m.bits[k] == m.bits[..p][k];
        assert s.bits[k] == s.bits[..p][k];
      }
    }
  }

  /** What a string or object given to `ip_network`/`ip_address` denotes. */
  datatype IpText =
    | AddrText(version: Version, bits: seq<bool>)
    | NetText(version: Version, bits: seq<bool>, prefixlen: nat)
    | NotIp(text: string)

  datatype IpError =
    | NotAnAddress      // "does not appear to be an IPv4 or IPv6 address/network"
    | BadNetmask        // prefix length beyond the address width
    | HostBitsSet       // strict parse of a network with host bits set

  /** The text names a well-formed address or address/prefix pair. */
  predicate TextValid(t: IpText)
  {
    match t
    case AddrText(v, b) => |b| == Width(v)
    case NetText(v, b, p) => |b| == Width(v) && p <= Width(v)
    case NotIp(_) => false
  }

  /** The prefix length the text states (full width for a bare address). */
  function TextPrefix(t: IpText): nat
    requires !t.NotIp?
  {
    if t.AddrText? then Width(t.version) else t.prefixlen
  }

  /** The text already has every host bit clear. */
  predicate TextCanonical(t: IpText)
    requires TextValid(t)
  {
    forall k :: TextPrefix(t) <= k < |t.bits| ==> !t.bits[k]
  }

  /**
   * `ipaddress.ip_network(t, strict)`: with `strict` a network with host bits
   * set is rejected; without it those bits are cleared.
   */
  function IpNetwork(t: IpText, strict: bool): (r: Result<Network, IpError>)
    ensures r.Success? <==> TextValid(t) && (strict ==> TextCanonical(t))
    ensures r.Success? ==> Canonical(r.value) && r.value.version == t.version
    ensures r.Success? ==> r.value.prefixlen == TextPrefix(t)
    ensures r.Success? ==> r.value.bits[..r.value.prefixlen] == t.bits[..r.value.prefixlen]
    ensures r.Success? && TextCanonical(t) ==> r.value.bits == t.bits
  {
    match t
    case NotIp(_) => Failure(NotAnAddress)
    case AddrText(v, b) =>
      if |b| != Width(v) then Failure(NotAnAddress)
      else Success(Network(v, b, Width(v)))
    case NetText(v, b, p) =>
      if |b| != Width(v) then Failure(NotAnAddress)
      else if p > Width(v) then Failure(BadNetmask)
      else if strict && !TextCanonical(t) then Failure(HostBitsSet)
      else
        var n := Network(v, Mask(b, p), p);
        assert TextCanonical(t) ==> n.bits == b by {
          if TextCanonical(t) {
            forall k | 0 <= k < |b| ensures n.bits[k] == b[k] {
              if k < p { assert n.bits[k] == n.bits[..p][k] && b[k] == b[..p][k]; }
            }
          }
        }
        Success(n)
  }

  /** `ipaddress.ip_address(t)`: only a bare address is accepted. */
  function IpAddress(t: IpText): (r: Result<Address, IpError>)
    ensures r.Success? <==> t.AddrText? && |t.bits| == Width(t.version)
    ensures r.Success? ==> ValidAddress(r.value) && r.value.bits == t.bits && r.value.version == t.version
  {
    if t.AddrText? && |t.bits| == Width(t.version) then Success(Address(t.version, t.bits))
    else Failure(NotAnAddress)
  }

  /** The text form of a network object, which reads back as the same network. */
  function AsText(n: Network): IpText
  {
    NetText(n.version, n.bits, n.prefixlen)
  }

  lemma {:induction false} AsTextRoundTrip(n: Network, strict: bool)
    requires Canonical(n)
    ensures IpNetwork(AsText(n), strict) == Success(n)
  {
    assert TextCanonical(AsText(n));
  }

  /** `k` low-order bits of `x`, most significant first. */
  function Bits(x: nat, k: nat): (b: seq<bool>)
    ensures |b| == k
  {
    if k == 0 then [] else Bits(x / 2, k - 1) + [x % 2 == 1]
  }

  /** The dotted-quad address `a.b.c.d` as bits. */
  function Ipv4(a: nat, b: nat, c: nat, d: nat): (r: seq<bool>)
    ensures |r| == 32
  {
    Bits(a, 8) + Bits(b, 8) + Bits(c, 8) + Bits(d, 8)
  }
}
