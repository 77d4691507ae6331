/**
 * The plain-text range lists some providers publish, and the scanners that
 * turn a downloaded body into CIDR strings: the XML line scan of Azure and
 * Microsoft, the commented list of Cachefly, the `<br>`-separated page of
 * QUIC.cloud and the line list of ArvanCloud. A response is its status code
 * (0 when the object has none) and its decoded body text.
 */
module Sources {
  import opened Wrappers
  import opened Text
  import opened Sorting
  import opened IpNet

  datatype Response = Response(status: int, text: string)

  // ---------------------------------------------------------------- Azure / Microsoft

  /** The text that marks a line of the XML list as a range entry. */
  const Marker: string := "IpRange Subnet"

  predicate IsEntry(line: string)
  {
    IsInfix(Marker, line)
  }

  /** `line.split('"')[1]` on a line without a double quote. */
  datatype ScanError = IndexError(line: string)

  /** `line.split('"')[1]`: the text after the first double quote, up to the next one. */
  function QuotedField(line: string): (r: Result<string, ScanError>)
    ensures r.Failure? <==> '"' !in line
    ensures r.Failure? ==> r.error == IndexError(line)
    ensures r.Success? ==> '"' !in r.value
  {
    var fields := SplitOn(line, '"');
    if |fields| < 2 then Failure(IndexError(line)) else Success(fields[1])
  }

  /** The field is exactly what lies between the first quote and the second (or the end). */
  lemma QuotedBetween(line: string, i: nat, j: nat)
    requires i < j <= |line| && line[i] == '"' && '"' !in line[..i]
    requires '"' !in line[i + 1..j] && (j == |line| || line[j] == '"')
    ensures QuotedField(line) == Success(line[i + 1..j])
  {
    SecondField(line, '"', i);
    var rest := line[i + 1..];
    assert rest[..j - i - 1] == line[i + 1..j];
    FirstField(rest, '"', j - i - 1);
  }

  /**
   * The scan over the lines, first to last: the values of the entry lines,
   * or the error of the first entry line without a quote.
   */
  function ScanLines(lines: seq<string>): Result<set<string>, ScanError>
  {
    if lines == [] then Success({})
    else
      var rest := ScanLines(lines[1..]);
      if !IsEntry(lines[0]) then rest
      else match QuotedField(lines[0])
        case Failure(e) => Failure(e)
        case Success(v) => if rest.Success? then Success({v} + rest.value) else rest
  }

  /** Values found so far, joined with the outcome of the remaining lines. */
  function AddFound(found: set<string>, rest: Result<set<string>, ScanError>): Result<set<string>, ScanError>
  {
    if rest.Success? then Success(found + rest.value) else rest
  }

  /** The scan succeeds exactly when every entry line has a quote. */
  lemma {:induction false} ScanSucceeds(lines: seq<string>)
    ensures ScanLines(lines).Success? <==> forall i :: 0 <= i < |lines| && IsEntry(lines[i]) ==> '"' in lines[i]
  {
    if lines != [] {
      ScanSucceeds(lines[1..]);
      assert forall i :: 1 <= i < |lines| ==> lines[i] == lines[1..][i - 1];
    }
  }

  /** On success the result holds exactly the fields of the entry lines. */
  lemma {:induction false} ScanValues(lines: seq<string>, v: string)
    requires ScanLines(lines).Success?
    ensures v in ScanLines(lines).value <==>
      exists i :: 0 <= i < |lines| && IsEntry(lines[i]) && QuotedField(lines[i]) == Success(v)
  {
    if lines != [] {
      ScanValues(lines[1..], v);
      assert forall i :: 1 <= i < |lines| ==> lines[i] == lines[1..][i - 1];
      if exists i :: 1 <= i < |lines| && IsEntry(lines[i]) && QuotedField(lines[i]) == Success(v) {
        var i :| 1 <= i < |lines| && IsEntry(lines[i]) && QuotedField(lines[i]) == Success(v);
        assert lines[1..][i - 1] == lines[i];
      }
    }
  }

  /** Line `i` is the first entry line without a quote. */
  predicate FirstUnquoted(lines: seq<string>, i: int)
  {
    && 0 <= i < |lines| && IsEntry(lines[i]) && '"' !in lines[i]
    && forall k :: 0 <= k < i && IsEntry(lines[k]) ==> '"' in lines[k]
  }

  /** A failure names the first entry line that has no quote. */
  lemma {:induction false} ScanFailure(lines: seq<string>)
    requires ScanLines(lines).Failure?
    ensures exists i :: FirstUnquoted(lines, i) && ScanLines(lines).error == IndexError(lines[i])
  {
    if IsEntry(lines[0]) && '"' !in lines[0] {
      assert ScanLines(lines).error == IndexError(lines[0]);
    } else {
      ScanFailure(lines[1..]);
      var i :| FirstUnquoted(lines[1..], i) && ScanLines(lines[1..]).error == IndexError(lines[1..][i]);
      assert lines[i + 1] == lines[1..][i];
      forall k | 0 <= k < i + 1 && IsEntry(lines[k]) ensures '"' in lines[k] {
        if k > 0 { assert lines[k] == lines[1..][k - 1]; }
      }
      assert FirstUnquoted(lines, i + 1);
    }
  }

  /**
   * `parse_response` of Azure (and of the older Azure class): for each line
   * of the body holding the marker, adds `line.split('"')[1]` to a set.
   */
  method SubnetLines(text: string) returns (r: Result<set<string>, ScanError>)
    ensures r == ScanLines(SplitLines(text))
  {
    var lines := SplitLines(text);
    var ranges: set<string> := {};
    var i := 0;
    assert lines[0..] == lines;
    assert ScanLines(lines).Success? ==> {} + ScanLines(lines).value == ScanLines(lines).value;
    while i < |lines|
      invariant 0 <= i <= |lines|
      invariant ScanLines(lines) == AddFound(ranges, ScanLines(lines[i..]))
    {
      var line := lines[i];
      assert lines[i..][1..] == lines[i + 1..];
      var rest := ScanLines(lines[i + 1..]);
      assert lines[i..][0] == line;
      if IsEntry(line) {
        var field := QuotedField(line);
        if field.Failure? {
          return Failure(field.error);
        }
        assert rest.Success? ==> ranges + ({field.value} + rest.value) == (ranges + {field.value}) + rest.value;
        ranges := ranges + {field.value};
      }
      i := i + 1;
    }
    assert lines[i..] == [];
    r := Success(ranges);
  }

  /** `Microsoft.fetch_cidrs`: the same scan, returned as a list. */
  method MicrosoftCidrs(text: string) returns (r: Result<seq<string>, ScanError>)
    ensures r.Success? <==> ScanLines(SplitLines(text)).Success?
    ensures r.Failure? ==> r.error == ScanLines(SplitLines(text)).error
    ensures r.Success? ==> Distinct(r.value)
    ensures r.Success? ==> forall v :: v in r.value <==> v in ScanLines(SplitLines(text)).value
  {
    var ranges := SubnetLines(text);
    if ranges.Failure? {
      return Failure(ranges.error);
    }
    var cidrs := ListOf(ranges.value);
    r := Success(cidrs);
  }

  // ---------------------------------------------------------------- Cachefly

  /** A stripped line Cachefly keeps: non-empty and not a `#` comment. */
  predicate Kept(line: string)
  {
    line != "" && line[0] != '#'
  }

  /** `line and not line.startswith("#")` */
  lemma KeptStartsWith(line: string)
    ensures Kept(line) <==> line != "" && !StartsWith(line, "#")
  {
    if line != "" {
      assert line[..1] == [line[0]];
    }
  }

  /** Every line, stripped, in order. */
  function StripEach(lines: seq<string>): (r: seq<string>)
    ensures |r| == |lines|
    ensures forall i :: 0 <= i < |lines| ==> r[i] == Strip(lines[i])
  {
    if lines == [] then [] else [Strip(lines[0])] + StripEach(lines[1..])
  }

  /** Stripping leaves whitespace-free words as they are. */
  lemma StripEachWords(words: seq<string>)
    requires forall i :: 0 <= i < |words| ==> NoSpace(words[i])
    ensures StripEach(words) == words
  {
    forall i | 0 <= i < |words| ensures StripEach(words)[i] == words[i] {
      StripNoSpace(words[i]);
    }
  }

  /**
   * `Cachefly.fetch_cidrs`: on status 200, every line of the body, stripped,
   * unless it is blank or a comment; a list without repeats.
   */
  method CacheflyCidrs(response: Response) returns (cidrs: seq<string>)
    ensures Distinct(cidrs)
    ensures forall x :: x in cidrs <==> response.status == 200 && x in StripEach(SplitLines(response.text)) && Kept(x)
  {
    var ranges: set<string> := {};
    if response.status == 200 {
      ranges := KeptLines(SplitLines(response.text));
    }
    cidrs := ListOf(ranges);
  }

  /** The loop over the lines: adds each stripped line that is kept. */
  method KeptLines(lines: seq<string>) returns (ranges: set<string>)
    ensures forall x :: x in ranges <==> x in StripEach(lines) && Kept(x)
  {
    ranges := {};
    ghost var stripped := StripEach(lines);
    var i := 0;
    while i < |lines|
      invariant 0 <= i <= |lines|
      invariant forall x :: x in ranges <==> x in stripped[..i] && Kept(x)
    {
      PrefixSnocIn(stripped, i);
      var line := Strip(lines[i]);
      if Kept(line) {
        ranges := ranges + {line};
      }
      i := i + 1;
    }
    assert stripped[..i] == stripped;
  }

  lemma PrefixSnocIn<T>(s: seq<T>, i: nat)
    requires i < |s|
    ensures forall y :: y in s[..i + 1] <==> y in s[..i] || y == s[i]
  {
    assert s[..i + 1] == s[..i] + [s[i]];
  }

  /** Every Cachefly entry is a piece of the body with no whitespace at either end. */
  lemma CacheflyEntries(response: Response, x: string)
    requires x in StripEach(SplitLines(response.text)) && Kept(x)
    ensures !IsSpace(x[0]) && !IsSpace(x[|x| - 1])
    ensures IsInfix(x, response.text)
  {
    var lines := SplitLines(response.text);
    var i :| 0 <= i < |lines| && StripEach(lines)[i] == x;
    SplitLinesInfix(response.text);
    StripEnds(lines[i]);
    StripInfix(lines[i]);
    InfixTrans(x, lines[i], response.text);
  }

  // ---------------------------------------------------------------- QUIC.cloud

  /** The body with each `<br>`, `<br/>` and `<br />` replaced by a space, in that order. */
  function WithoutBreakTags(text: string): string
  {
    Replace(Replace(Replace(text, "<br>", " "), "<br/>", " "), "<br />", " ")
  }

  /** `ipaddress.ip_network(token, strict=False)` does not raise. */
  predicate Accepted(parse: string -> IpText, token: string)
  {
    IpNetwork(parse(token), false).Success?
  }

  /**
   * `Quiccloud.fetch_cidrs`: on status 200, the whitespace-separated tokens
   * of the body without its line-break tags that parse as networks
   * (host bits allowed), kept as written; a list without repeats.
   * `parse` is the lexical step of `ipaddress` (text to address form).
   */
  method QuiccloudCidrs(response: Response, parse: string -> IpText) returns (cidrs: seq<string>)
    ensures Distinct(cidrs)
    ensures forall x :: x in cidrs <==>
      response.status == 200 && x in SplitWs(WithoutBreakTags(response.text)) && Accepted(parse, x)
  {
    var ranges: set<string> := {};
    if response.status == 200 {
      var text := response.text;
      text := Replace(Replace(Replace(text, "<br>", " "), "<br/>", " "), "<br />", " ");
      var tokens := SplitWs(text);
      ranges := AcceptedTokens(tokens, parse);
      StripEachWords(tokens);
    }
    cidrs := ListOf(ranges);
  }

  /** The loop over the tokens: adds each stripped, non-empty token that parses. */
  method AcceptedTokens(tokens: seq<string>, parse: string -> IpText) returns (ranges: set<string>)
    ensures forall x :: x in ranges <==> x in StripEach(tokens) && x != "" && Accepted(parse, x)
  {
    ranges := {};
    ghost var stripped := StripEach(tokens);
    var i := 0;
    while i < |tokens|
      invariant 0 <= i <= |tokens|
      invariant forall x :: x in ranges <==> x in stripped[..i] && x != "" && Accepted(parse, x)
    {
      PrefixSnocIn(stripped, i);
      var token := Strip(tokens[i]);
      if token != "" {
        if IpNetwork(parse(token), false).Success? {
          ranges := ranges + {token};
        }
      }
      i := i + 1;
    }
    assert stripped[..i] == stripped;
  }

  /** A token of the cleaned body is a whitespace-free piece of the original body. */
  lemma QuiccloudTokenInText(text: string, x: string)
    requires x in SplitWs(WithoutBreakTags(text))
    ensures x != "" && NoSpace(x) && IsInfix(x, text)
  {
    var t1 := Replace(text, "<br>", " ");
    var t2 := Replace(t1, "<br/>", " ");
    var t3 := Replace(t2, "<br />", " ");
    SplitWsInfix(t3);
    NoSpaceNoBlank(x);
    ReplaceKeeps(t2, "<br />", x);
    ReplaceKeeps(t1, "<br/>", x);
    ReplaceKeeps(text, "<br>", x);
  }

  /** A token holds neither `<br>` nor `<br/>` (`<br />` holds a space, so no token can). */
  lemma QuiccloudTokenNoBreak(text: string, x: string)
    requires x in SplitWs(WithoutBreakTags(text))
    ensures !IsInfix("<br>", x) && !IsInfix("<br/>", x)
  {
    var t1 := Replace(text, "<br>", " ");
    var t2 := Replace(t1, "<br/>", " ");
    var t3 := Replace(t2, "<br />", " ");
    SplitWsInfix(t3);
    NoSpaceNoBlank(x);
    ReplaceKeeps(t2, "<br />", x);
    ReplaceKeeps(t1, "<br/>", x);
    ReplaceRemoves(text, "<br>");
    ReplaceRemoves(t1, "<br/>");
    assert !IsInfix("<br>", x) by {
      if IsInfix("<br>", x) {
        InfixTrans("<br>", x, t1);
      }
    }
    assert !IsInfix("<br/>", x) by {
      if IsInfix("<br/>", x) {
        InfixTrans("<br/>", x, t2);
      }
    }
  }

  // ---------------------------------------------------------------- ArvanCloud

  /** `Arvancloud.parse_response`: on status 200, the set of the body's lines, unfiltered. */
  method ArvancloudRanges(response: Response) returns (ranges: set<string>)
    ensures forall x :: x in ranges <==> response.status == 200 && x in SplitLines(response.text)
  {
    ranges := {};
    if response.status == 200 {
      var lines := SplitLines(response.text);
      ranges := ranges + set i | 0 <= i < |lines| :: lines[i];
    }
  }

  /** Lines are taken as they are: an interior blank line contributes "". */
  lemma ArvancloudBlankLine(a: string, b: string)
    requires NoLineBreak(a)
    ensures "" in SplitLines(a + "\n\n" + b)
  {
    SplitLinesBlank(a, b);
    assert ([a, ""] + SplitLines(b))[1] == "";
  }
}
