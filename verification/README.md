# cloudcheck, modelled in Dafny

cloudcheck tells whether an IP address or a host name belongs to a cloud
provider. This project models the logic that the repository implements
itself. The matching engine, `RadixTarget`, is an external package, so it
appears here only as the set of keys inserted into it.

The modelled parts are:

- **Supernets and CIDR membership** (`Helpers`, `Cidr`, over `IpNet`).
  `ip_network_parents` enumerates the supernets of a network.
  `CidrRanges` stores parsed networks. An address is "in" the ranges when
  one of its *proper* supernets is stored. A network is "in" the ranges when
  exactly that block is stored. Addresses and networks are big-endian bit
  strings. Masking keeps a prefix and clears the rest, as in section 3.1 of
  RFC 4632 and section 2.3 of RFC 4291.
- **Provider state** (`ProviderBase`). `BaseCloudProvider` is a class with
  these fields:
  - `ranges`;
  - the radix, as its set of keys;
  - `last_updated`.

  Its methods are `__init__`, `update_ranges`, `update_domains`, the refresh
  step `update` and `to_json`. Building `CloudProviderJSON` is modelled
  too: the field's type check reads every cidr strictly, and then the
  `cidrs` validator reads them again without `strict`. `__contains__` is
  the function `BaseCloudProvider.Contains`: exact membership in `ranges`,
  so an address is never contained.
- **The older provider classes** (`Legacy`, for cloudcheck/providers.py).
  `get_ranges` falls back to an empty result on failure. A `CloudProvider`
  holds the `CidrRanges` built at construction. The older Azure parser is
  modelled as well.
- **Source-list scanners** (`Sources`), from a status code and a body text:
  - the XML line scan of Azure and Microsoft;
  - Cachefly's list, stripped and with comments removed;
  - QUIC.cloud's `<br>`-separated tokens, filtered by network parsing;
  - ArvanCloud's `splitlines`.

  The Python string operations they use are defined in `Text`, with their
  properties: `splitlines`, `strip`, `split()`, `split(sep)`, `replace`,
  `lower` and string order.
- **The cache merge of `cloudcheck_update.update()`** (`CacheUpdate`).
  Each field is filled only where the cache has nothing truthy. The file is
  written from the new dumps, not from the merge result. The error list
  returned is the last returned list, doubled.
- **The Rust loader** (`Loader`, for src/lib.rs):
  - the last-fetch time and the 24-hour refresh decision;
  - the timestamp rules of `load_json_data`;
  - `build_data_structures` as a fold over the items, building the multimap
    from normalised key to providers;
  - `ensure_loaded` and `lookup` on a `CloudCheck` class.
- **Staleness** (`Staleness`, `LastUpdated`):
  - the `force`/`cache_hrs` rule of `cloudcheck.update`;
  - `check_last_updated`: the outdated filter, the stable sort by time and
    the exit code.
- **README table** (`ReadmeTable`): `format_tags` and `generate_table`.

`Sorting` holds a stable insertion sort for `sorted` and `list.sort`, and
`ListOf` for `list(set)`.

Three behaviours of the code are worth stating outright:

- `BaseCloudProvider.update` replaces `ranges` with the ASN subnets before
  fetching, so a failed fetch leaves only those subnets;
- `cloudcheck_update.update()` writes the new dumps to the cache file,
  not the merged cache;
- the errors it returns are only the last provider's list, doubled.

Times are whole seconds and `now` is a parameter. Functions the code calls
but that are not part of this model appear as function parameters:

- `make_ip_type` is the parameter `mk`;
- `str(network)` is `render`;
- the text grammar of `ipaddress` is `lex`/`parse`;
- the radix's `get` and `insert` are the two fields of `RadixOps`;
- JSON decoding is `decode`.

## Model

| member | source | states |
|---|---|---|
| IpNet.Mask | cloudcheck/helpers.py:10 | the first `i` bits are kept and every later bit is cleared |
| IpNet.HostNetwork | cloudcheck/helpers.py:8 | an address read as a network is canonical at full width and contains exactly that address |
| IpNet.Supernet | cloudcheck/helpers.py:10 | the `/i` network built from a network's address is canonical, has prefix `i` and the same version, and covers the network when `i` is at most its prefix |
| IpNet.CoversContains | cloudcheck/cidr.py:21-23 | an address inside a network is inside every network that covers it |
| IpNet.CanonicalUnique | cloudcheck/cidr.py:21-22 | a canonical network covering `n` is the parent of `n` with its own prefix length, so the parent lookup finds exactly the covering stored networks |
| IpNet.IpNetwork | cloudcheck/helpers.py:8 | `ip_network` succeeds iff the text is a well-formed address or prefix and, under `strict`, has no host bits set; the result is canonical, keeps the text's prefix bits, and equals the text when it had no host bits |
| IpNet.IpAddress | cloudcheck/cidr.py:20 | `ip_address` accepts only a bare address of the right width and keeps its bits |
| IpNet.AsTextRoundTrip | cloudcheck/providers/base.py:38 | a network object given back to `ip_network` reads as itself, strict or not |
| Helpers.Parents | cloudcheck/helpers.py:9-10 | there are `prefixlen` parents (one more with `include_self`), in strictly decreasing prefix length; each is canonical and covers the input; the last is the `/0` network; with `include_self` the first is the masked input |
| Helpers.ParentsComplete | cloudcheck/helpers.py:9-10 | every canonical network shorter than the input that covers it (and with `include_self` the input's own block) is among the parents |
| Helpers.IpNetworkParents | cloudcheck/helpers.py:4-10 | the input is read non-strictly: it fails only when it is not an IP at all, and otherwise gives the parents of the masked network |
| Helpers.FirstParentExample | cloudcheck/helpers.py:5-6 | for 192.168.1.1 the first parent is 192.168.1.0/31 |
| Helpers.NonStrictMasks | cloudcheck/helpers.py:8 | an input with host bits set is masked, not rejected |
| Helpers.ZeroPrefixHasNoParents | cloudcheck/helpers.py:9 | a `/0` network has no proper parents |
| Cidr.ParseRanges | cloudcheck/cidr.py:13-15 | the strict parse of all range strings succeeds iff each one does; the set is exactly their networks, all canonical; a failure carries the error of some range |
| Cidr.CidrRanges.Empty | cloudcheck/cidr.py:13 | a new range set is empty |
| Cidr.CidrRanges.Contains | cloudcheck/cidr.py:17-24 | a network query is exact membership; an address query fails iff `ip_address` fails, and otherwise is true iff a stored network shorter than full width contains the address |
| Cidr.NewCidrRanges | cloudcheck/cidr.py:12-15 | the constructor's loop fails with the parse error, or leaves `cidrs` equal to the parsed set |
| Cidr.ParsePrefixThenFailure | cloudcheck/cidr.py:14-15 | after a prefix that parses, the first range that fails decides the error |
| Cidr.ParseExtend | cloudcheck/cidr.py:14-15 | one more successful range adds its network to the set built so far |
| Cidr.ParseFront | cloudcheck/cidr.py:14-15 | a non-empty prefix parses iff its first range and the rest do, and its set is the first network joined with the rest's |
| Cidr.DuplicatesCollapse | cloudcheck/cidr.py:13-15 | giving every range twice gives the same outcome as giving it once |
| Cidr.FirstFailure | cloudcheck/cidr.py:14-15 | once a prefix of the ranges fails, later ranges do not change the outcome |
| Cidr.HostBitsRejected | cloudcheck/cidr.py:15 | a range with a host bit set is refused with `HostBitsSet` |
| Cidr.NoSelfMatch | cloudcheck/cidr.py:21 | the parents looked up for an address (`include_self=False`) exclude its own full-width network, so an address never matches a stored `/32` or `/128` of itself |
| ProviderBase.ValidateCidrs | cloudcheck/providers/base.py:35-38 | the validator alone: it succeeds iff every value is a network, and otherwise fails with some value's error; the list keeps its length, and each entry is the non-strict reading of its value, which is canonical and keeps the value's prefix bits |
| ProviderBase.ValidateRoundTrip | cloudcheck/providers/base.py:38 | canonical networks validate to themselves |
| ProviderBase.ValidateCons | cloudcheck/providers/base.py:38 | validation proceeds value by value, in order |
| ProviderBase.ValidateMasks | cloudcheck/providers/base.py:38 | the validator alone masks a network with host bits set rather than rejecting it |
| ProviderBase.TypedNetworks | cloudcheck/providers/base.py:27 | the field's type check succeeds iff every value reads strictly as a network; the list keeps its length and order, and a failure carries the error of some value |
| ProviderBase.ReadJson | cloudcheck/providers/base.py:24-38 | building the record succeeds iff every cidr reads strictly; the cidrs are then those strict readings in order, and domains and `last_updated` are copied |
| ProviderBase.HostBitsRefusedInJson | cloudcheck/providers/base.py:27-38 | a JSON cidr with a host bit set makes building the record fail with `HostBitsSet`, although the validator alone would accept it |
| ProviderBase.LowerAll | cloudcheck/providers/base.py:56 | each domain is lower-cased, with order and count kept |
| ProviderBase.SeedKeys | cloudcheck/providers/base.py:55-57 | any listing of the distinct class and JSON domains, lower-cased, inserts exactly the lower-cased union |
| ProviderBase.AddRangesIdempotent | cloudcheck/providers/base.py:110-114 | adding the same items a second time changes nothing |
| ProviderBase.BaseCloudProvider.constructor | cloudcheck/providers/base.py:49-59 | without JSON, everything is empty; with JSON, `ranges` is the normalised cidrs, the radix holds the lower-cased domains and those networks, and `last_updated` is copied |
| ProviderBase.BaseCloudProvider.UpdateRanges | cloudcheck/providers/base.py:110-114 | `ranges` and the radix only gain the normalised items |
| ProviderBase.BaseCloudProvider.UpdateDomains | cloudcheck/providers/base.py:116-118 | only the radix gains the domains; `ranges` is untouched |
| ProviderBase.BaseCloudProvider.Update | cloudcheck/providers/base.py:70-98 | `last_updated` is now; `ranges` becomes the ASN subnets plus a non-empty parse result when there is a URL; the radix keeps everything it had, so a range inserted earlier but neither among the subnets nor fetched stays in the radix and is no longer contained; a raising fetch adds nothing |
| ProviderBase.BaseCloudProvider.ToJson | cloudcheck/providers/base.py:120-140 | the class domains are emitted sorted as a permutation; the cidrs are, as a multiset, the string forms of a repetition-free listing of `ranges`, sorted; there is no record before `last_updated` is set |
| ProviderBase.BaseCloudProvider.Contains | cloudcheck/providers/base.py:162-163 | a query is contained iff it is a network equal to one in `ranges`; an address never is |
| ProviderBase.NewProvider | cloudcheck/providers/base.py:49-59 | construction raises iff the JSON is given and building its record fails, with that error; otherwise the new provider's state is the constructor's for the record built |
| CacheUpdate.MergeFields | cloudcheck_update/__init__.py:83-85 | the field loop computes the field-wise merge of one record |
| CacheUpdate.MergeInto | cloudcheck_update/__init__.py:78-85 | the provider loop computes the merge of the new dumps into the cache |
| CacheUpdate.MergeRecordStep | cloudcheck_update/__init__.py:84-85 | one field is copied iff the new value is truthy and the merged value so far is missing or falsy |
| CacheUpdate.MergeStep | cloudcheck_update/__init__.py:79-85 | one provider: an unknown name is added whole, a known one is merged field-wise |
| CacheUpdate.Update | cloudcheck_update/__init__.py:60-89 | a raising constructor aborts the run; otherwise the file gets the dumps of the providers whose update returned a list, the errors are the last list doubled, and the merge starts from the cache file or `{}` |
| CacheUpdate.MergeKeeps | cloudcheck_update/__init__.py:78-85 | the merge removes no provider and no field, and never overwrites a truthy value |
| CacheUpdate.MergeAddsNew | cloudcheck_update/__init__.py:79-81 | a name the cache lacks gets its whole new record |
| CacheUpdate.MergeField | cloudcheck_update/__init__.py:82-85 | for a cached name, a field is present iff it was cached or its new value is truthy, and it takes the new value exactly when that is truthy and the cached one is missing or falsy |
| CacheUpdate.MergeIntoEmpty | cloudcheck_update/__init__.py:76 | with no cache file the merge result is the new dump |
| CacheUpdate.MergeRecordIdempotent | cloudcheck_update/__init__.py:83-85 | merging a record twice with the same new record equals merging once |
| CacheUpdate.MergeIdempotent | cloudcheck_update/__init__.py:78-85 | merging the same dump twice equals merging it once |
| CacheUpdate.MergeRecordSelf | cloudcheck_update/__init__.py:83-85 | a record merged with itself is unchanged |
| CacheUpdate.SucceededNames | cloudcheck_update/__init__.py:64-69 | a name is written iff some provider of that name returned a list from `update()`, so cache-only providers are dropped |
| CacheUpdate.LastErrorsOfLast | cloudcheck_update/__init__.py:63-68 | the errors returned are those of the last provider whose update did not raise, doubled (`None` if it returned `None`) |
| CacheUpdate.LastErrorsNone | cloudcheck_update/__init__.py:63 | when every update raises, the errors are the initial empty list |
| Loader.LastFetchTime | src/lib.rs:89-120 | the in-memory time wins; otherwise the file's mtime, and nothing when the file or its mtime is missing |
| Loader.NeedsRefresh | src/lib.rs:228-253 | a refresh is needed with no last-fetch time, with one in the future, or after at least 24 hours |
| Loader.RefreshMonotone | src/lib.rs:240-241 | once due, a refresh stays due as time passes |
| Loader.RefreshWindow | src/lib.rs:228-241 | no refresh until one second before 24 hours after a fetch; a refresh exactly at 24 hours |
| Loader.FoldAppend | src/lib.rs:175-217 | filing two lists of items one after the other is filing their concatenation |
| Loader.FileItems | src/lib.rs:182-198 | the inner loop files one provider's items exactly as the fold does |
| Loader.BuildDataStructures | src/lib.rs:169-221 | the radix keys and the map are those of filing every CIDR and then every domain of each provider in order |
| Loader.FoldUnder | src/lib.rs:194-197 | a key is in the map iff some item was accepted under it, and its list is the providers of those items in order |
| Loader.FoldAccepted | src/lib.rs:175-217 | no more items are accepted than given, and each accepted provider comes from the input |
| Loader.NoDedup | src/lib.rs:184-197 | when `get` misses, `insert` files an item under a key and `get` then finds that key, the same item given twice lists its provider twice under the key |
| Loader.LookupIn | src/lib.rs:305-309 | the list stored under the key `get` returns, or empty when `get` finds nothing or the key has no list |
| Loader.LoadedData | src/lib.rs:126-164 | fresh data comes from the network; cached data only without a refresh; it fails iff the network is needed and unavailable |
| Loader.CloudCheck.constructor | src/lib.rs:46-52 | nothing is loaded and there is no fetch time |
| Loader.CloudCheck.LoadJsonData | src/lib.rs:126-164 | the data is `LoadedData`; a cache read sets `last_fetch` to the read time only if it was unset; the data fields are untouched |
| Loader.CloudCheck.EnsureLoaded | src/lib.rs:227-294 | loaded and fresh data returns early with no change; it fails exactly when the home directory is unset, the load fails or the build fails; a failure keeps the old data, and sets `last_fetch` to the file's read time only when the data was read from the cache file, its build failed and no time was recorded; success replaces radix and map by the build and stamps `last_fetch` after a network fetch |
| Loader.CloudCheck.Lookup | src/lib.rs:296-310 | the loading outcome is that of `ensure_loaded`, with the same failure condition and the same new radix, map and `last_fetch`; on success the answer is `LookupIn` on the loaded data |
| Staleness.ShouldUpdate | cloudcheck/__init__.py:18-22 | the update runs iff forced or the hours since `last_updated`, as a real number, are at least `cache_hrs` |
| Staleness.ForceUpdates | cloudcheck/__init__.py:21-22 | `force` always updates |
| Staleness.DueStaysDue | cloudcheck/__init__.py:19-21 | without `force`, an update once due stays due |
| Staleness.DefaultThreshold | cloudcheck/__init__.py:18 | with the default, 192 hours is due and one second less is not |
| LastUpdated.ByTimeOrder | scripts/check_last_updated.py:20 | the sort key is a total preorder |
| LastUpdated.OutdatedIn | scripts/check_last_updated.py:12-16 | the collected entries are exactly the input entries older than one week |
| LastUpdated.OutdatedInDistinct | scripts/check_last_updated.py:13-16 | each provider is collected at most once |
| LastUpdated.CollectOutdated | scripts/check_last_updated.py:12-16 | the loop collects the outdated entries in input order |
| LastUpdated.NoneOutdated | scripts/check_last_updated.py:18-27 | nothing is collected iff no entry is outdated |
| LastUpdated.CheckLastUpdated | scripts/check_last_updated.py:6-27 | the code is 1 iff an entry is outdated, else 0; the list is a permutation of the outdated entries, without repeats, sorted by time, keeping input order among equal times |
| Sorting.SortByCorrect | scripts/check_last_updated.py:20 | the sort gives a sorted permutation that keeps the input order of equal elements |
| Sorting.ListOf | cloudcheck/providers/microsoft.py:37 | `list(set)` lists each element once |
| ReadmeTable.FormatTags | scripts/update_readme_table.py:15-17 | no tags give "-" and one tag gives itself |
| ReadmeTable.FormatTagsFree | scripts/update_readme_table.py:17 | the tag column holds no character that is absent from the tags and from ", " |
| ReadmeTable.FormatTagsFields | scripts/update_readme_table.py:17 | splitting the tag column at commas gives the tags back in order |
| ReadmeTable.RowCells | scripts/update_readme_table.py:50-52 | splitting a row at bars gives the five cells between two empty ends |
| ReadmeTable.RowSingleLine | scripts/update_readme_table.py:50-52 | a row holds no line feed when the record's texts hold none |
| ReadmeTable.Rows | scripts/update_readme_table.py:26-52 | there is one row per key, in the given order |
| ReadmeTable.RenderRows | scripts/update_readme_table.py:22-52 | the loop appends exactly those rows |
| ReadmeTable.SortedKeyList | scripts/update_readme_table.py:26 | the keys are listed sorted, without repeats |
| ReadmeTable.SortedKeysUnique | scripts/update_readme_table.py:26 | there is only one sorted key order, so the table is determined |
| ReadmeTable.GenerateTable | scripts/update_readme_table.py:20-60 | the table is the heading, the header, the separator and the rows, in sorted key order |
| ReadmeTable.JoinUnlines | scripts/update_readme_table.py:58 | rows joined by line feeds plus a final one are each row followed by a line feed |
| ReadmeTable.FixedLinesSingle | scripts/update_readme_table.py:55-57 | the heading, header and separator are single lines |
| ReadmeTable.TableUnlines | scripts/update_readme_table.py:54-58 | the table is its lines each followed by a line feed |
| ReadmeTable.TableLines | scripts/update_readme_table.py:54-58 | split at line feeds, the table gives the heading, an empty line, the header, the separator and the rows (one empty row when there are none) |
| Legacy.CacheLifetime | cloudcheck/providers.py:19-21 | a given `cache_for` is used; the default is seven days in seconds |
| Legacy.GetRanges | cloudcheck/providers.py:25-34 | a non-empty result is what the parser returned on the response |
| Legacy.GetRangesFallback | cloudcheck/providers.py:30-34 | a failed request or a raising parser gives the empty result |
| Legacy.GetRangesPassThrough | cloudcheck/providers.py:27-29 | a successful request and parse give the parser's result |
| Legacy.AzureParse | cloudcheck/providers.py:54-60 | the parser raises iff the line scan fails |
| Legacy.AzureRanges | cloudcheck/providers.py:54-60 | the older Azure provider gets exactly the quoted fields of the marker lines when all of them have a quote, and nothing otherwise |
| Legacy.CloudProvider.constructor | cloudcheck/providers.py:17-23 | the provider keeps its name, `quiet`, lifetime and ranges |
| Legacy.CloudProvider.Contains | cloudcheck/providers.py:47-48 | `ip in provider` answers as its `CidrRanges` does |
| Legacy.NewCloudProvider | cloudcheck/providers.py:17-23 | construction succeeds iff every fetched string parses strictly; the name is the class name; the ranges are the parsed strings; a failure carries the error of some string |
| Legacy.ParseInAnyOrder | cloudcheck/providers.py:23 | the order in which a set's strings are parsed does not change the outcome |
| Sources.QuotedField | cloudcheck/providers/azure.py:58 | `split('"')[1]` fails iff the line has no quote, and the field holds no quote |
| Sources.QuotedBetween | cloudcheck/providers/azure.py:58 | the field is the text between the first quote and the next one (or the end) |
| Sources.ScanSucceeds | cloudcheck/providers/azure.py:56-58 | the scan succeeds iff every marker line has a quote |
| Sources.ScanValues | cloudcheck/providers/azure.py:55-60 | on success the set is exactly the fields of the marker lines |
| Sources.ScanFailure | cloudcheck/providers/azure.py:56-58 | a failure names the first marker line without a quote |
| Sources.SubnetLines | cloudcheck/providers/azure.py:54-60 | the loop computes the line scan |
| Sources.MicrosoftCidrs | cloudcheck/providers/microsoft.py:32-37 | the same scan as a list without repeats, holding exactly the set's values, with the same failure |
| Sources.KeptStartsWith | cloudcheck/providers/cachefly.py:24 | a line is kept iff it is non-empty and does not start with "#" |
| Sources.StripEach | cloudcheck/providers/cachefly.py:22-23 | each line is stripped, with order and count kept |
| Sources.StripEachWords | cloudcheck/providers/quiccloud.py:30-31 | stripping leaves whitespace-free tokens unchanged |
| Sources.KeptLines | cloudcheck/providers/cachefly.py:22-25 | the set is exactly the stripped lines that are kept |
| Sources.CacheflyCidrs | cloudcheck/providers/cachefly.py:18-26 | with status 200, the list holds exactly the stripped non-blank, non-comment lines, without repeats; otherwise it is empty |
| Sources.CacheflyEntries | cloudcheck/providers/cachefly.py:22-25 | every entry is a piece of the body with no whitespace at either end |
| Sources.AcceptedTokens | cloudcheck/providers/quiccloud.py:30-37 | the set is exactly the stripped, non-empty tokens that parse non-strictly, kept as written |
| Sources.QuiccloudCidrs | cloudcheck/providers/quiccloud.py:20-38 | with status 200, the list holds exactly the whitespace tokens of the body, `<br>` tags removed, that parse as networks, without repeats; otherwise it is empty |
| Sources.QuiccloudTokenInText | cloudcheck/providers/quiccloud.py:26-30 | every token is a non-empty, whitespace-free piece of the original body |
| Sources.QuiccloudTokenNoBreak | cloudcheck/providers/quiccloud.py:26-28 | no token holds `<br>` or `<br/>` |
| Sources.ArvancloudRanges | cloudcheck/providers/arvancloud.py:18-22 | with status 200 the set is exactly the body's lines; otherwise it is empty |
| Sources.ArvancloudBlankLine | cloudcheck/providers/arvancloud.py:21 | lines are not filtered: an interior blank line contributes "" |
| Text.SplitLinesNoBreak | cloudcheck/providers/arvancloud.py:21 | no line of `splitlines` holds a line break |
| Text.SplitLinesInfix | cloudcheck/providers/azure.py:56 | every line of `splitlines` is a piece of the text |
| Text.SplitLinesBlank | cloudcheck/providers/arvancloud.py:21 | two line feeds in a row give an empty line |
| Text.SplitLinesJoin | cloudcheck/providers/arvancloud.py:21 | for text broken only by line feeds, the lines joined by line feeds, plus the final line feed if there was one, give the text back |
| Text.StripSpec | cloudcheck/providers/cachefly.py:23 | `strip` removes whitespace runs from both ends and nothing else |
| Text.StripEnds | cloudcheck/providers/cachefly.py:23 | a stripped text neither starts nor ends with whitespace |
| Text.StripInfix | cloudcheck/providers/cachefly.py:23 | a stripped text is a piece of the original |
| Text.StripNoSpace | cloudcheck/providers/quiccloud.py:31 | a text without whitespace strips to itself |
| Text.SplitWs | cloudcheck/providers/quiccloud.py:30 | `split()` gives non-empty, whitespace-free tokens |
| Text.SplitWsInfix | cloudcheck/providers/quiccloud.py:30 | every token is a piece of the text |
| Text.SplitWsConcat | cloudcheck/providers/quiccloud.py:30 | the tokens together are the text's non-whitespace characters in order |
| Text.SplitOn | cloudcheck/providers/azure.py:58 | `split(sep)` gives pieces without the separator: one piece when the separator is absent, at least two otherwise |
| Text.SplitOnJoin | cloudcheck/providers/azure.py:58 | joining the pieces with the separator gives the text back |
| Text.FirstField | cloudcheck/providers/azure.py:58 | the first piece is the text before the first separator |
| Text.SecondField | cloudcheck/providers/azure.py:58 | the second piece is the first piece of what follows the first separator |
| Text.ReplaceRemoves | cloudcheck/providers/quiccloud.py:27 | after replacing a tag by a space, the tag no longer occurs |
| Text.ReplaceKeeps | cloudcheck/providers/quiccloud.py:27 | a whitespace-free piece of the replaced text is a piece of the original |
| Text.Lower | cloudcheck/providers/base.py:56 | each ASCII capital is lower-cased and every other character kept, with the length kept |
| Text.LexLeOrder | cloudcheck/providers/base.py:132-133 | string order is a total preorder, so `sorted` on strings is well defined |
| Text.DecimalRoundTrip | scripts/update_readme_table.py:51 | the decimal text of a count reads back as that count |

## Left out

- The `RadixTarget` internals are left out: its search, longest-prefix and
  domain-suffix matching, and how `get`/`insert` normalise keys. The package
  is external. The radix is its set of inserted keys, and `get`/`insert` are
  parameters.
- Network and file I/O becomes inputs, because it is outside the program's
  logic:
  - the HTTP fetches, the cache session and `self.request`;
  - the ASN database;
  - the cache and README files.

  The fetched body, the ASN subnets (`subnets`), the cache file and the
  file status are all inputs.
- Concurrency, locks and async plumbing are dropped; the model is
  sequential.
- Dynamic provider discovery through `importlib`, the CLIs and the pyo3
  bindings are left out. They only wire code together.
- The bucket-name and signature regexes are left out, as is the regex
  splice of `update_readme`. They depend on a regex engine.
- The JSON, CSV and ZIP response parsers of the other providers are left
  out, and so are the data-only provider declaration files. They are shape
  handling over library decoders.
- The base `parse_response` always returns `None`. The model takes any
  parse outcome as an input (`Fetched`, `Parsed`).
- Logging and printing are left out. The older provider's `quiet` flag is
  stored; it only gates printing (cloudcheck/providers.py:43-44), which is
  left out.
- `check(ip)` in cloudcheck/__init__.py:14-15 is not modelled. It
  delegates to the provider registry in cloudcheck/providers/__init__.py,
  which is not part of this model.
- The text grammar of `ipaddress` (dotted quads, IPv6 notation) is not
  modelled; its parsed form is `IpText`. The checks that follow parsing are
  modelled: width, prefix range and host bits.
- `make_ip_type`, `str(network)` and JSON decoding are left out. They are
  not part of this model's source. `make_ip_type` is the parameter `mk`,
  typed to return a network for every item.
- ProviderBase.BaseCloudProvider.Contains: because `mk` returns networks,
  `ranges` holds only networks and an address query is never contained. If
  `make_ip_type` turned a string into an address object, `ip in provider`
  would be true for that address; the model does not capture this.
- ProviderBase.BaseCloudProvider.UpdateRanges and
  ProviderBase.BaseCloudProvider.Update: `mk` is total, so a `make_ip_type`
  that raises partway through `update_ranges` is not modelled. Inside
  `update`'s `try` (cloudcheck/providers/base.py:81-96), the items before
  the raise would stay added; the model adds all items or, on a raising
  fetch, none.
- The re-validation that `to_json` does through `CloudProviderJSON` is left
  out.
- The other `CloudProviderJSON` fields (`name`, `bucket_name_regex`,
  `regexes`, `provider_type`, `ips_url`, `asns`) are not read by the
  constructor and are left out of `RawJson`.
- Timestamp parsing (`fromisoformat`, `strftime`) and the printed day
  counts are left out. Times are integer seconds.
- Staleness.ShouldUpdate: the source divides elapsed seconds by 3600 as a
  float. The contract states the comparison over real numbers, so
  floating-point rounding is not modelled.
- JSON values are assumed to have the field types the code expects.
  Missing fields take their defaults.
- Python's iteration order over sets is not modelled: `ListOf` lists a
  set in an arbitrary order.
- `build_data_structures` iterates a Rust `HashMap` (src/lib.rs:170,
  src/lib.rs:175) in an arbitrary order. That order decides the order of
  each key's provider list and which item `insert` normalises first. The
  model fixes it to the input order.
- Text.Lower: only ASCII `A`-`Z` are lower-cased. Python's `str.lower()`
  maps every cased Unicode letter and can change the length (`'İ'` becomes
  two characters). ProviderBase.LowerAll and ProviderBase.SeedKeys inherit
  this.
- ReadmeTable.FormatTags: its own contract covers only no tags and one tag.
  For several tags, the join is described by ReadmeTable.FormatTagsFields,
  under the condition that no tag contains a comma.
- Legacy.GetRanges: its contract states only the direction from a
  non-empty result. The fallback and pass-through cases are
  Legacy.GetRangesFallback and Legacy.GetRangesPassThrough.
- The older Amazon, Google, Oracle and DigitalOcean parsers are left out.
  They decode JSON or CSV.
