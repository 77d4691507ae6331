/**
 * The older provider classes of cloudcheck/providers.py: a provider downloads
 * one list, parses it into range strings, and answers `ip in provider` from
 * the `CidrRanges` built over them. A failed download or a parser that
 * raises leaves the provider with no ranges instead of failing.
 */
module Legacy {
  import opened Wrappers
  import opened Text
  import opened Sorting
  import opened IpNet
  import opened Cidr
  import opened Sources

  /** `cache_for` when the caller gives none: seven days, in seconds. */
  const DefaultCacheFor: int := 60 * 60 * 24 * 7

  /** What `self.session.get(self.main_url)` gave: a response, or a `RequestException`. */
  datatype Fetch = RequestFailed | Responded(response: Response)

  /** What `parse_response` did: returned a set of range strings, or raised. */
  datatype Parsed = Raised | Returned(ranges: set<string>)

  /** The lifetime the cached session is given. */
  function CacheLifetime(cacheFor: Option<int>): (r: int)
    ensures cacheFor.Some? ==> r == cacheFor.value
    ensures cacheFor.None? ==> r == 604800
  {
    if cacheFor.None? then DefaultCacheFor else cacheFor.value
  }

  /**
   * `get_ranges()`: the parser's result on the response; the empty list when
   * the request or the parser raised.
   */
  function GetRanges(fetched: Fetch, parse: Response -> Parsed): (r: set<string>)
    ensures r != {} ==> fetched.Responded? && parse(fetched.response) == Returned(r)
  {
    match fetched
    case RequestFailed => {}
    case Responded(response) =>
      match parse(response)
      case Raised => {}
      case Returned(ranges) => ranges
  }

  /** A failed request or a raising parser gives no ranges; nothing propagates. */
  lemma GetRangesFallback(fetched: Fetch, parse: Response -> Parsed)
    requires fetched.RequestFailed? || parse(fetched.response).Raised?
    ensures GetRanges(fetched, parse) == {}
  {
  }

  /** When the request and the parser both succeed, their result is used as it is. */
  lemma GetRangesPassThrough(fetched: Fetch, parse: Response -> Parsed)
    requires fetched.Responded? && parse(fetched.response).Returned?
    ensures GetRanges(fetched, parse) == parse(fetched.response).ranges
  {
  }

  /**
   * `Azure.parse_response`: the line scan shared with the newer Azure
   * provider; a marker line without a quote raises.
   */
  function AzureParse(response: Response): (r: Parsed)
    ensures r.Raised? <==> ScanLines(SplitLines(response.text)).Failure?
  {
    match ScanLines(SplitLines(response.text))
    case Success(found) => Returned(found)
    case Failure(_) => Raised
  }

  /**
   * The older Azure provider ends up with the quoted fields of the marker
   * lines when every marker line has a quote, and with nothing otherwise.
   */
  lemma AzureRanges(fetched: Fetch, v: string)
    requires fetched.Responded?
    ensures var lines := SplitLines(fetched.response.text);
      v in GetRanges(fetched, AzureParse) <==>
        (forall i :: 0 <= i < |lines| && IsEntry(lines[i]) ==> '"' in lines[i]) &&
        exists i :: 0 <= i < |lines| && IsEntry(lines[i]) && QuotedField(lines[i]) == Success(v)
  {
    var lines := SplitLines(fetched.response.text);
    ScanSucceeds(lines);
    if ScanLines(lines).Success? {
      ScanValues(lines, v);
    }
  }

  /** `CloudProvider`: a named provider and the ranges it loaded when it was made. */
  class CloudProvider {
    const name: string
    const quiet: bool
    const cacheFor: int
    const ranges: CidrRanges

    ghost predicate Valid()
      reads this, ranges
    {
      ranges.Valid()
    }

    constructor (name: string, quiet: bool, cacheFor: int, ranges: CidrRanges)
      requires ranges.Valid()
      ensures this.name == name && this.quiet == quiet && this.cacheFor == cacheFor
      ensures this.ranges == ranges && Valid()
    {
      this.name := name;
      this.quiet := quiet;
      this.cacheFor := cacheFor;
      this.ranges := ranges;
    }

    /** `ip in provider` is `ip in provider.ranges`. */
    method Contains(q: Query) returns (r: Result<bool, IpError>)
      requires Valid()
      ensures q.NetworkQuery? ==> r == Success(q.net in ranges.cidrs)
      ensures q.AddressQuery? ==> (r.Failure? <==> IpAddress(q.text).Failure?)
      ensures q.AddressQuery? && r.Success? ==> r.value == AddressIn(ranges.cidrs, IpAddress(q.text).value)
    {
      r := ranges.Contains(q);
    }
  }

  /**
   * `CloudProvider(quiet, cache_for)` of the class `className`: fetches and
   * parses the list, then builds `CidrRanges` over the strings in the set's
   * iteration order; a string the strict parse refuses makes construction
   * raise.
   */
  method NewCloudProvider(className: string, quiet: bool, cacheFor: Option<int>, fetched: Fetch,
                          parse: Response -> Parsed, lex: string -> IpText)
    returns (r: Result<CloudProvider, IpError>)
    ensures r.Success? <==> forall x :: x in GetRanges(fetched, parse) ==> IpNetwork(lex(x), true).Success?
    ensures r.Failure? ==> exists x :: x in GetRanges(fetched, parse) && IpNetwork(lex(x), true) == Failure(r.error)
    ensures r.Success? ==> fresh(r.value) && r.value.Valid()
    ensures r.Success? ==> r.value.name == className && r.value.quiet == quiet && r.value.cacheFor == CacheLifetime(cacheFor)
    ensures r.Success? ==> r.value.ranges.cidrs == set x | x in GetRanges(fetched, parse) :: IpNetwork(lex(x), true).value
  {
    var found := GetRanges(fetched, parse);
    var order := ListOf(found);
    var built := NewCidrRanges(Apply(order, lex));
    ParseInAnyOrder(found, order, lex);
    if built.Failure? {
      return Failure(built.error);
    }
    var c := built.value;
    var p := new CloudProvider(className, quiet, CacheLifetime(cacheFor), c);
    return Success(p);
  }

  /** Parsing the strings of a set in any order that lists them gives the same outcome. */
  lemma ParseInAnyOrder(found: set<string>, order: seq<string>, lex: string -> IpText)
    requires forall x :: x in order <==> x in found
    ensures var r := ParseRanges(Apply(order, lex));
      && (r.Success? <==> forall x :: x in found ==> IpNetwork(lex(x), true).Success?)
      && (r.Failure? ==> exists x :: x in found && IpNetwork(lex(x), true) == Failure(r.error))
      && (r.Success? ==> r.value == set x | x in found :: IpNetwork(lex(x), true).value)
  {
    var texts := Apply(order, lex);
    var r := ParseRanges(texts);
    if r.Failure? {
      var i :| 0 <= i < |texts| && IpNetwork(texts[i], true) == Failure(r.error);
      assert order[i] in found;
    } else {
      forall x | x in found ensures IpNetwork(lex(x), true).Success? {
        var i :| 0 <= i < |order| && order[i] == x;
        assert texts[i] == lex(x);
      }
      forall n | n in r.value ensures n in set x | x in found :: IpNetwork(lex(x), true).value {
        var i :| 0 <= i < |texts| && n == IpNetwork(texts[i], true).value;
        assert order[i] in found;
      }
      forall x | x in found ensures IpNetwork(lex(x), true).value in r.value {
        var i :| 0 <= i < |order| && order[i] == x;
        assert texts[i] == lex(x);
      }
    }
  }
}
