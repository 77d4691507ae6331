/**
 * scripts/update_readme_table.py: the Markdown table of cloud providers that
 * the README embeds, rendered from the provider records of the cache file.
 */
module ReadmeTable {
  import opened Text
  import opened Sorting

  /**
   * The fields of one provider record the table reads. A field the record
   * lacks reads as its default: "" for the descriptions, [] for the lists.
   */
  datatype Entry = Entry(
    shortDescription: string,
    longDescription: string,
    tags: seq<string>,
    domains: seq<string>,
    cidrs: seq<string>)

  /** `format_tags(tags)`: "-" for no tags, else the tags joined by ", ". */
  function FormatTags(tags: seq<string>): (r: string)
    ensures tags == [] ==> r == "-"
    ensures |tags| == 1 ==> r == tags[0]
  {
    if tags == [] then "-" else Join(tags, ", ")
  }

  /** A character absent from the tags and from ", " is absent from the tag column. */
  lemma FormatTagsFree(tags: seq<string>, c: char)
    requires c != ',' && c != ' ' && c != '-'
    requires forall i :: 0 <= i < |tags| ==> c !in tags[i]
    ensures c !in FormatTags(tags)
  {
    if tags != [] {
      JoinFree(tags, ", ", c);
    }
  }

  lemma {:induction false} JoinFree(xs: seq<string>, sep: string, c: char)
    requires c !in sep && forall i :: 0 <= i < |xs| ==> c !in xs[i]
    ensures c !in Join(xs, sep)
  {
    if |xs| > 1 {
      JoinFree(xs[1..], sep, c);
    }
  }

  /**
   * Splitting the tag column at the commas gives the tags back: the first
   * as it is, each later one behind the space of ", ".
   */
  lemma FormatTagsFields(tags: seq<string>)
    requires tags != [] && forall i :: 0 <= i < |tags| ==> ',' !in tags[i]
    ensures |SplitOn(FormatTags(tags), ',')| == |tags|
    ensures SplitOn(FormatTags(tags), ',')[0] == tags[0]
    ensures forall i :: 1 <= i < |tags| ==> SplitOn(FormatTags(tags), ',')[i] == " " + tags[i]
  {
    CommaFields("", tags);
    assert "" + Join(tags, ", ") == Join(tags, ", ");
  }

  lemma {:induction false} CommaFields(lead: string, xs: seq<string>)
    requires ',' !in lead
    requires xs != [] && forall i :: 0 <= i < |xs| ==> ',' !in xs[i]
    ensures |SplitOn(lead + Join(xs, ", "), ',')| == |xs|
    ensures SplitOn(lead + Join(xs, ", "), ',')[0] == lead + xs[0]
    ensures forall i :: 1 <= i < |xs| ==> SplitOn(lead + Join(xs, ", "), ',')[i] == " " + xs[i]
    decreases |xs|
  {
    if |xs| == 1 {
      assert ',' !in lead + xs[0];
    } else {
      var rest := Join(xs[1..], ", ");
      SepRegroup(lead, xs[0], ',', ' ', rest);
      assert ',' !in lead + xs[0];
      SplitOnCons(lead + xs[0], ',', " " + rest);
      CommaFields(" ", xs[1..]);
      var tail := SplitOn(" " + rest, ',');
      forall i | 1 <= i < |xs| ensures ([lead + xs[0]] + tail)[i] == " " + xs[i] {
        assert xs[1..][i - 1] == xs[i];
      }
    }
  }

  /** The name column: the short description when it is non-empty, else the key. */
  function NameColumn(key: string, e: Entry): string
  {
    if e.shortDescription != "" then e.shortDescription else key
  }

  /** The description column: "-" when the long description is missing or empty. */
  function DescriptionColumn(e: Entry): string
  {
    if e.longDescription != "" then e.longDescription else "-"
  }

  /** The row `generate_table` appends for provider `key`. */
  function Row(key: string, e: Entry): string
  {
    "| " + NameColumn(key, e) + " | " + DescriptionColumn(e) + " | " + FormatTags(e.tags)
    + " | " + Decimal(|e.domains|) + " | " + Decimal(|e.cidrs|) + " |"
  }

  /** The five cells of a row, each between single spaces. */
  function Cells(key: string, e: Entry): seq<string>
  {
    [" " + NameColumn(key, e) + " ", " " + DescriptionColumn(e) + " ", " " + FormatTags(e.tags) + " ",
     " " + Decimal(|e.domains|) + " ", " " + Decimal(|e.cidrs|) + " "]
  }

  /** Cells each closed by a bar, behind an opening bar. */
  function Bars(cells: seq<string>): string
  {
    if cells == [] then "|" else "|" + cells[0] + Bars(cells[1..])
  }

  lemma RowBars(key: string, e: Entry)
    ensures Row(key, e) == Bars(Cells(key, e))
  {
    FiveBars(NameColumn(key, e), DescriptionColumn(e), FormatTags(e.tags), Decimal(|e.domains|), Decimal(|e.cidrs|));
  }

  lemma FiveBars(n: string, d: string, t: string, x: string, y: string)
    ensures "| " + n + " | " + d + " | " + t + " | " + x + " | " + y + " |"
      == Bars([" " + n + " ", " " + d + " ", " " + t + " ", " " + x + " ", " " + y + " "])
  {
    var cs := [" " + n + " ", " " + d + " ", " " + t + " ", " " + x + " ", " " + y + " "];
    assert Bars(cs[5..]) == "|";
    assert cs[4..][1..] == cs[5..];
    assert Bars(cs[4..]) == "|" + cs[4] + "|";
    assert cs[3..][1..] == cs[4..];
    assert Bars(cs[3..]) == "|" + cs[3] + ("|" + cs[4] + "|");
    assert cs[2..][1..] == cs[3..];
    assert Bars(cs[2..]) == "|" + cs[2] + ("|" + cs[3] + ("|" + cs[4] + "|"));
    assert cs[1..][1..] == cs[2..];
    assert Bars(cs[1..]) == "|" + cs[1] + ("|" + cs[2] + ("|" + cs[3] + ("|" + cs[4] + "|")));
    assert Bars(cs) == "|" + cs[0] + ("|" + cs[1] + ("|" + cs[2] + ("|" + cs[3] + ("|" + cs[4] + "|"))));
  }

  lemma {:induction false} BarsSplit(lead: string, cells: seq<string>)
    requires '|' !in lead && forall i :: 0 <= i < |cells| ==> '|' !in cells[i]
    ensures SplitOn(lead + Bars(cells), '|') == [lead] + cells + [""]
    decreases |cells|
  {
    if cells == [] {
      AppendNil(lead + ['|']);
      SplitOnCons(lead, '|', "");
    } else {
      var rest := cells[0] + Bars(cells[1..]);
      Regroup(lead, '|', cells[0], Bars(cells[1..]));
      SplitOnCons(lead, '|', rest);
      BarsSplit(cells[0], cells[1..]);
      ConsAround(lead, cells, "");
    }
  }

  /** `c` occurs in none of the record's texts nor in its key. */
  predicate Free(c: char, key: string, e: Entry)
  {
    && c !in key && c !in e.shortDescription && c !in e.longDescription
    && forall i :: 0 <= i < |e.tags| ==> c !in e.tags[i]
  }

  /**
   * Splitting a row at "|" gives an empty text before the first bar, the five
   * cells, and an empty text after the last bar, provided no text of the
   * record contains "|".
   */
  lemma RowCells(key: string, e: Entry)
    requires Free('|', key, e)
    ensures SplitOn(Row(key, e), '|') == [""] + Cells(key, e) + [""]
  {
    var cs := Cells(key, e);
    FormatTagsFree(e.tags, '|');
    assert forall i :: 0 <= i < |cs| ==> '|' !in cs[i];
    RowBars(key, e);
    BarsSplit("", cs);
    assert "" + Bars(cs) == Bars(cs);
  }

  /** A row is a single line when no text of the record contains a line feed. */
  lemma RowSingleLine(key: string, e: Entry)
    requires Free('\n', key, e)
    ensures '\n' !in Row(key, e)
  {
    FormatTagsFree(e.tags, '\n');
  }

  /** The rows for the providers named in `order`, in that order. */
  function Rows(providers: map<string, Entry>, order: seq<string>): (r: seq<string>)
    requires forall i :: 0 <= i < |order| ==> order[i] in providers
    ensures |r| == |order|
    ensures forall i :: 0 <= i < |order| ==> r[i] == Row(order[i], providers[order[i]])
  {
    if order == [] then []
    else
      var last := order[|order| - 1];
      Rows(providers, order[..|order| - 1]) + [Row(last, providers[last])]
  }

  /** The header and separator lines, cell by cell. */
  const HeaderLine: string := "| Name " + "| Description " + "| Tags " + "| Domains " + "| Subnets |"
  const SeparatorLine: string := "|------" + "|-------------" + "|------" + "|---------" + "|----------|"

  function HeadingLine(count: nat): string
  {
    "## Cloud Providers (" + Decimal(count) + ")"
  }

  function Heading(count: nat): string
  {
    HeadingLine(count) + "\n\n"
  }

  const Header: string := HeaderLine + "\n"
  const Separator: string := SeparatorLine + "\n"

  /** The text `generate_table` returns when it visits the keys in `order`. */
  function TableOf(providers: map<string, Entry>, order: seq<string>): string
    requires forall i :: 0 <= i < |order| ==> order[i] in providers
  {
    Heading(|providers|) + Header + Separator + Join(Rows(providers, order), "\n") + "\n"
  }

  /** Each line followed by a line feed. */
  function Unlines(lines: seq<string>): string
  {
    if lines == [] then "" else lines[0] + "\n" + Unlines(lines[1..])
  }

  lemma {:induction false} JoinUnlines(lines: seq<string>)
    requires lines != []
    ensures Join(lines, "\n") + "\n" == Unlines(lines)
  {
    if |lines| > 1 {
      JoinUnlines(lines[1..]);
      assert Join(lines, "\n") + "\n" == lines[0] + "\n" + (Join(lines[1..], "\n") + "\n");
    } else {
      assert lines[1..] == [];
    }
  }

  lemma {:induction false} UnlinesSplit(lines: seq<string>)
    requires forall i :: 0 <= i < |lines| ==> '\n' !in lines[i]
    ensures SplitOn(Unlines(lines), '\n') == lines + [""]
  {
    if lines != [] {
      var rest := Unlines(lines[1..]);
      assert Unlines(lines) == lines[0] + ['\n'] + rest;
      SplitOnCons(lines[0], '\n', rest);
      UnlinesSplit(lines[1..]);
      assert [lines[0]] + (lines[1..] + [""]) == lines + [""];
    }
  }

  /** `order` is `sorted(providers.keys())`. */
  ghost predicate SortedKeys(providers: map<string, Entry>, order: seq<string>)
  {
    && Distinct(order)
    && (forall k :: k in order <==> k in providers)
    && SortedBy(order, LexLe)
  }

  /** There is one sorted key order, so the table is determined by the records. */
  lemma {:induction false} SortedKeysUnique(providers: map<string, Entry>, a: seq<string>, b: seq<string>)
    requires SortedKeys(providers, a) && SortedKeys(providers, b)
    ensures a == b
  {
    SameSortedUnique(a, b);
  }

  lemma {:induction false} SameSortedUnique(a: seq<string>, b: seq<string>)
    requires Distinct(a) && Distinct(b) && SortedBy(a, LexLe) && SortedBy(b, LexLe)
    requires forall k :: k in a <==> k in b
    ensures a == b
  {
    if a != [] {
      assert a[0] in b;
    }
    if b != [] {
      assert b[0] in a;
    }
    if a != [] && b != [] {
      assert LexLe(b[0], a[0]) by {
        var j :| 0 <= j < |b| && b[j] == a[0];
        if j == 0 { LexLeTotal(a[0], a[0]); }
      }
      assert LexLe(a[0], b[0]) by {
        var j :| 0 <= j < |a| && a[j] == b[0];
        if j == 0 { LexLeTotal(b[0], b[0]); }
      }
      LexLeAntisym(a[0], b[0]);
      forall k ensures k in a[1..] <==> k in b[1..] {
        assert k in a <==> k == a[0] || k in a[1..] by { assert a == [a[0]] + a[1..]; }
        assert k in b <==> k == b[0] || k in b[1..] by { assert b == [b[0]] + b[1..]; }
      }
      SameSortedUnique(a[1..], b[1..]);
      assert a == [a[0]] + a[1..] && b == [b[0]] + b[1..];
    }
  }

  /** `sorted(providers.keys())` */
  method SortedKeyList(providers: map<string, Entry>) returns (order: seq<string>)
    ensures SortedKeys(providers, order)
  {
    var keys := ListOf(providers.Keys);
    LexLeOrder();
    SortByCorrect(keys, LexLe);
    order := SortBy(keys, LexLe);
    PermutationDistinct(keys, order);
    forall k ensures k in order <==> k in keys {
      assert k in order <==> k in multiset(order);
      assert k in keys <==> k in multiset(keys);
    }
  }

  /**
   * `generate_table(providers)`: one row per provider in ascending key order
   * under the heading, the header and the separator.
   */
  method GenerateTable(providers: map<string, Entry>) returns (table: string)
    ensures exists order :: SortedKeys(providers, order) && table == TableOf(providers, order)
  {
    var order := SortedKeyList(providers);
    var rows := RenderRows(providers, order);
    table := Heading(|providers|) + Header + Separator + Join(rows, "\n") + "\n";
  }

  /** The loop of `generate_table` that appends one row per key. */
  method RenderRows(providers: map<string, Entry>, order: seq<string>) returns (rows: seq<string>)
    requires forall i :: 0 <= i < |order| ==> order[i] in providers
    ensures rows == Rows(providers, order)
  {
    rows := [];
    var i := 0;
    while i < |order|
      invariant 0 <= i <= |order|
      invariant rows == Rows(providers, order[..i])
    {
      var name := order[i];
      RowsSnoc(providers, order, i);
      rows := rows + [Row(name, providers[name])];
      i := i + 1;
    }
    assert order[..i] == order;
  }

  lemma RowsSnoc(providers: map<string, Entry>, order: seq<string>, i: nat)
    requires i < |order| && forall i :: 0 <= i < |order| ==> order[i] in providers
    ensures Rows(providers, order[..i + 1]) == Rows(providers, order[..i]) + [Row(order[i], providers[order[i]])]
  {
    assert order[..i + 1][..i] == order[..i];
  }

  lemma FixedLinesSingle(count: nat)
    ensures '\n' !in HeaderLine && '\n' !in SeparatorLine && '\n' !in HeadingLine(count)
  {
    var digits := Decimal(count);
    assert '\n' !in digits;
  }

  lemma {:induction false} UnlinesPreamble(a: string, b: string, c: string, body: seq<string>)
    ensures Unlines([a, "", b, c] + body) == a + "\n\n" + (b + "\n") + (c + "\n") + Unlines(body)
  {
    var u := Unlines(body);
    UnlinesCons(c, body);
    UnlinesCons(b, [c] + body);
    UnlinesCons("", [b] + ([c] + body));
    UnlinesCons(a, [""] + ([b] + ([c] + body)));
    FourCons(a, "", b, c, body);
    assert "" + "\n" + (b + "\n" + (c + "\n" + u)) == "\n" + (b + "\n" + (c + "\n" + u));
    PreambleRegroup(a, b, c, u);
  }

  lemma UnlinesCons(x: string, r: seq<string>)
    ensures Unlines([x] + r) == x + "\n" + Unlines(r)
  {
    assert ([x] + r)[1..] == r;
  }

  lemma FourCons<T>(w: T, x: T, y: T, z: T, r: seq<T>)
    ensures [w, x, y, z] + r == [w] + ([x] + ([y] + ([z] + r)))
  {
  }

  lemma PreambleRegroup(a: string, b: string, c: string, u: string)
    ensures a + "\n" + ("\n" + (b + "\n" + (c + "\n" + u))) == a + "\n\n" + (b + "\n") + (c + "\n") + u
  {
  }

  /** The lines of the table, in order. */
  function Lines(providers: map<string, Entry>, order: seq<string>): seq<string>
    requires forall i :: 0 <= i < |order| ==> order[i] in providers
  {
    [HeadingLine(|providers|), "", HeaderLine, SeparatorLine]
    + (if order == [] then [""] else Rows(providers, order))
  }

  lemma TableUnlines(providers: map<string, Entry>, order: seq<string>)
    requires forall i :: 0 <= i < |order| ==> order[i] in providers
    ensures TableOf(providers, order) == Unlines(Lines(providers, order))
  {
    var rows := Rows(providers, order);
    var body := if order == [] then [""] else rows;
    assert Join(rows, "\n") + "\n" == Unlines(body) by {
      if order != [] {
        JoinUnlines(rows);
      }
    }
    var pre := Heading(|providers|) + Header + Separator;
    assert TableOf(providers, order) == pre + (Join(rows, "\n") + "\n");
    UnlinesPreamble(HeadingLine(|providers|), HeaderLine, SeparatorLine, body);
  }

  /**
   * The lines of the table: the heading, an empty line, the header, the
   * separator, then one line per provider row (a single empty line when there
   * are none), and the empty text after the final line feed.
   */
  lemma TableLines(providers: map<string, Entry>, order: seq<string>)
    requires forall i :: 0 <= i < |order| ==> order[i] in providers
    requires forall k :: k in providers ==> Free('\n', k, providers[k])
    ensures SplitOn(TableOf(providers, order), '\n') == Lines(providers, order) + [""]
  {
    var rows := Rows(providers, order);
    forall i | 0 <= i < |rows| ensures '\n' !in rows[i] {
      RowSingleLine(order[i], providers[order[i]]);
    }
    FixedLinesSingle(|providers|);
    TableUnlines(providers, order);
    UnlinesSplit(Lines(providers, order));
  }
}
