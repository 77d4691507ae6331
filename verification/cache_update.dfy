/**
 * `update()` of cloudcheck_update/__init__.py: every provider is updated,
 * the ones whose update succeeds are dumped, the dump is merged into the
 * existing cache ("fill a field only where the cache has nothing truthy"),
 * and the file is written from the dump.
 *
 * The provider classes, their `update()` and `model_dump()` are inputs
 * (`ProviderRun`); reading and writing the cache file are the parameter
 * `cacheFile` and the `written` part of the outcome.
 */
module CacheUpdate {
  import opened Wrappers
  import opened Sorting

  /** A JSON value as `json.load` returns it (numbers as integers). */
  datatype Json =
    | JNull
    | JBool(b: bool)
    | JNum(n: int)
    | JStr(s: string)
    | JArr(items: seq<Json>)
    | JObj(fields: map<string, Json>)

  /** Python truthiness of a JSON value. */
  predicate Truthy(v: Json)
  {
    match v
    case JNull => false
    case JBool(b) => b
    case JNum(n) => n != 0
    case JStr(s) => s != ""
    case JArr(a) => a != []
    case JObj(m) => m != map[]
  }

  /** One provider's dumped fields. */
  type Record = map<string, Json>

  /** Provider name to record, as in the cache file. */
  type Cache = map<string, Record>

  /** Field `k` is copied: the new value is truthy and the cache's is missing or falsy. */
  predicate Fills(existing: Record, incoming: Record, k: string)
  {
    k in incoming && Truthy(incoming[k]) && !(k in existing && Truthy(existing[k]))
  }

  /** The merge of one provider's new record into its cached record. */
  function MergeRecord(existing: Record, incoming: Record): Record
  {
    map k | k in existing.Keys + (set f | f in incoming && Truthy(incoming[f])) ::
      if Fills(existing, incoming, k) then incoming[k] else existing[k]
  }

  /** The merge of the new dump into the cache: unknown names are added whole. */
  function Merge(existing: Cache, incoming: Cache): Cache
  {
    map n | n in existing.Keys + incoming.Keys ::
      if n !in existing then incoming[n]
      else if n in incoming then MergeRecord(existing[n], incoming[n])
      else existing[n]
  }

  function Restrict<V>(m: map<string, V>, keys: set<string>): map<string, V>
  {
    map k | k in m && k in keys :: m[k]
  }

  /** The inner loop: each truthy new field fills a missing or falsy cached one. */
  method MergeFields(existing: Record, incoming: Record) returns (record: Record)
    ensures record == MergeRecord(existing, incoming)
  {
    record := existing;
    var fields := ListOf(incoming.Keys);
    var j := 0;
    while j < |fields|
      invariant 0 <= j <= |fields|
      invariant record == MergeRecord(existing, Restrict(incoming, set f | f in fields[..j]))
    {
      var k := fields[j];
      var seen := fields[..j];
      var next := fields[..j + 1];
      assert next == seen + [k];
      MergeRecordStep(existing, incoming, (set f | f in seen), k);
      if Truthy(incoming[k]) && !(k in record && Truthy(record[k])) {
        record := record[k := incoming[k]];
      }
      assert (set f | f in next) == (set f | f in seen) + {k};
      j := j + 1;
    }
    assert fields[..j] == fields;
    RestrictAll(incoming, set f | f in fields[..j]);
  }

  lemma RestrictAll<V>(m: map<string, V>, keys: set<string>)
    requires m.Keys <= keys
    ensures Restrict(m, keys) == m
  {
  }

  lemma MergeRecordStep(existing: Record, incoming: Record, seen: set<string>, k: string)
    requires k in incoming && k !in seen
    ensures var r := MergeRecord(existing, Restrict(incoming, seen));
      MergeRecord(existing, Restrict(incoming, seen + {k})) ==
        if Truthy(incoming[k]) && !(k in r && Truthy(r[k])) then r[k := incoming[k]] else r
  {
  }

  /**
   * The merge loop: for each new provider, a name missing from the cache
   * gets the whole record; otherwise its fields are merged.
   */
  method MergeInto(existing: Cache, incoming: Cache) returns (cache: Cache)
    ensures cache == Merge(existing, incoming)
  {
    cache := existing;
    var names := ListOf(incoming.Keys);
    var done: set<string> := {};
    var i := 0;
    while i < |names|
      invariant 0 <= i <= |names|
      invariant forall n :: n in done <==> n in names[..i]
      invariant cache == Merge(existing, Restrict(incoming, done))
    {
      var name := names[i];
      assert name !in done;
      MergeStep(existing, incoming, done, name);
      if name !in existing {
        cache := cache[name := incoming[name]];
      } else {
        var record := MergeFields(cache[name], incoming[name]);
        cache := cache[name := record];
      }
      assert cache == Merge(existing, Restrict(incoming, done + {name}));
      assert names[..i + 1] == names[..i] + [name];
      done := done + {name};
      i := i + 1;
    }
    assert names[..i] == names;
    RestrictAll(incoming, done);
  }

  lemma MergeStep(existing: Cache, incoming: Cache, done: set<string>, name: string)
    requires name in incoming && name !in done
    ensures var c := Merge(existing, Restrict(incoming, done));
      Merge(existing, Restrict(incoming, done + {name})) ==
        if name !in existing then c[name := incoming[name]]
        else c[name := MergeRecord(c[name], incoming[name])]
  {
  }

  /** What a provider's `update()` did. */
  datatype UpdateResult =
    | Raised                          // the call raised
    | ReturnedNone                    // returned `None`: the `extend` then raises
    | ReturnedList(errors: seq<string>)

  /** One provider class as the loop meets it. */
  datatype ProviderRun = ProviderRun(name: string, constructs: bool, result: UpdateResult, dump: Record)

  datatype Outcome =
    | Aborted                         // a constructor raised: nothing is written
    | Completed(written: Cache, errors: Option<seq<string>>, merged: Cache)

  /** The providers kept by the loop: later runs with the same name replace earlier ones. */
  function Succeeded(runs: seq<ProviderRun>): Cache
  {
    if runs == [] then map[]
    else
      var r := runs[|runs| - 1];
      var m := Succeeded(runs[..|runs| - 1]);
      if r.result.ReturnedList? then m[r.name := r.dump] else m
  }

  /** The error list the loop ends with (`None` once an update returned `None`). */
  function LastErrors(runs: seq<ProviderRun>): Option<seq<string>>
  {
    if runs == [] then Some([])
    else
      match runs[|runs| - 1].result
      case Raised => LastErrors(runs[..|runs| - 1])
      case ReturnedNone => None
      case ReturnedList(e) => Some(e + e)
  }

  /**
   * `update()`: a provider whose constructor raises aborts the run; one
   * whose update raises is skipped; `errors` is rebound to each returned
   * list and then extended with itself.
   */
  method Update(runs: seq<ProviderRun>, cacheFile: Option<Cache>) returns (o: Outcome)
    ensures o.Aborted? <==> exists i :: 0 <= i < |runs| && !runs[i].constructs
    ensures o.Completed? ==>
      && o.written == Succeeded(runs)
      && o.errors == LastErrors(runs)
      && o.merged == Merge(if cacheFile.Some? then cacheFile.value else map[], Succeeded(runs))
  {
    var providers: Cache := map[];
    var errors: Option<seq<string>> := Some([]);
    var i := 0;
    while i < |runs|
      invariant 0 <= i <= |runs|
      invariant forall k :: 0 <= k < i ==> runs[k].constructs
      invariant providers == Succeeded(runs[..i]) && errors == LastErrors(runs[..i])
    {
      var run := runs[i];
      if !run.constructs {
        return Aborted;
      }
      match run.result {
        case Raised =>
        case ReturnedNone =>
          errors := None;
        case ReturnedList(e) =>
          errors := Some(e + e);
          providers := providers[run.name := run.dump];
      }
      assert runs[..i + 1][..i] == runs[..i];
      i := i + 1;
    }
    assert runs[..i] == runs;
    var existing := if cacheFile.Some? then cacheFile.value else map[];
    var merged := MergeInto(existing, providers);
    return Completed(providers, errors, merged);
  }

  // ------------------------------------------------------------------ properties

  /** The merge removes no provider and no field, and never overwrites a truthy value. */
  lemma MergeKeeps(existing: Cache, incoming: Cache)
    ensures existing.Keys <= Merge(existing, incoming).Keys
    ensures forall n :: n in existing ==> existing[n].Keys <= Merge(existing, incoming)[n].Keys
    ensures forall n, k :: n in existing && k in existing[n] && Truthy(existing[n][k]) ==>
      Merge(existing, incoming)[n][k] == existing[n][k]
  {
  }

  /** A name the cache lacks is added with its whole new record. */
  lemma MergeAddsNew(existing: Cache, incoming: Cache, n: string)
    requires n in incoming && n !in existing
    ensures n in Merge(existing, incoming) && Merge(existing, incoming)[n] == incoming[n]
  {
  }

  /**
   * For a cached name, a field ends up with the new value exactly when the
   * new value is truthy and the cached one is missing or falsy.
   */
  lemma MergeField(existing: Cache, incoming: Cache, n: string, k: string)
    requires n in existing && n in incoming
    ensures k in Merge(existing, incoming)[n] <==> k in existing[n] || (k in incoming[n] && Truthy(incoming[n][k]))
    ensures k in Merge(existing, incoming)[n] ==>
      Merge(existing, incoming)[n][k] ==
        if k in incoming[n] && Truthy(incoming[n][k]) && !(k in existing[n] && Truthy(existing[n][k]))
        then incoming[n][k] else existing[n][k]
  {
  }

  /** Without a cache file the merge result is the new dump. */
  lemma MergeIntoEmpty(incoming: Cache)
    ensures Merge(map[], incoming) == incoming
  {
  }

  lemma {:induction false} MergeRecordIdempotent(existing: Record, incoming: Record)
    ensures MergeRecord(MergeRecord(existing, incoming), incoming) == MergeRecord(existing, incoming)
  {
    var once := MergeRecord(existing, incoming);
    var twice := MergeRecord(once, incoming);
    forall k | k in once ensures k in twice && twice[k] == once[k] {
      if Fills(existing, incoming, k) {
        assert Truthy(once[k]);
      } else if k in incoming && Truthy(incoming[k]) {
        assert Truthy(existing[k]);
      }
    }
  }

  /** Merging the same dump a second time changes nothing. */
  lemma {:induction false} MergeIdempotent(existing: Cache, incoming: Cache)
    ensures Merge(Merge(existing, incoming), incoming) == Merge(existing, incoming)
  {
    var once := Merge(existing, incoming);
    forall n | n in once && n in incoming
      ensures MergeRecord(once[n], incoming[n]) == once[n]
    {
      if n in existing {
        MergeRecordIdempotent(existing[n], incoming[n]);
      } else {
        MergeRecordSelf(incoming[n]);
      }
    }
  }

  /** A record merged with itself is unchanged. */
  lemma MergeRecordSelf(r: Record)
    ensures MergeRecord(r, r) == r
  {
  }

  /** The providers written are the successful ones; a cache-only provider is not written. */
  lemma {:induction false} SucceededNames(runs: seq<ProviderRun>, n: string)
    ensures n in Succeeded(runs) <==> exists i :: 0 <= i < |runs| && runs[i].name == n && runs[i].result.ReturnedList?
  {
    if runs != [] {
      var init := runs[..|runs| - 1];
      SucceededNames(init, n);
      if n in Succeeded(init) {
        var i :| 0 <= i < |init| && init[i].name == n && init[i].result.ReturnedList?;
        assert runs[i] == init[i];
      }
      if i :| 0 <= i < |runs| && runs[i].name == n && runs[i].result.ReturnedList? {
        if i < |init| { assert init[i] == runs[i]; }
      }
    }
  }

  /**
   * The errors returned are those of the last provider whose update did not
   * raise, doubled; nothing from earlier providers is kept.
   */
  lemma {:induction false} LastErrorsOfLast(runs: seq<ProviderRun>, j: nat)
    requires j < |runs| && !runs[j].result.Raised?
    requires forall k :: j < k < |runs| ==> runs[k].result.Raised?
    ensures LastErrors(runs) ==
      if runs[j].result.ReturnedNone? then None else Some(runs[j].result.errors + runs[j].result.errors)
  {
    if j < |runs| - 1 {
      var init := runs[..|runs| - 1];
      assert init[j] == runs[j];
      LastErrorsOfLast(init, j);
    }
  }

  /** With no update that returned, the error list is the initial empty one. */
  lemma {:induction false} LastErrorsNone(runs: seq<ProviderRun>)
    requires forall k :: 0 <= k < |runs| ==> runs[k].result.Raised?
    ensures LastErrors(runs) == Some([])
  {
    if runs != [] {
      LastErrorsNone(runs[..|runs| - 1]);
    }
  }
}
