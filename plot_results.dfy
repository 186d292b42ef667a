/**
 * scripts/plot_results.py: turns the rows of the benchmark's CSV files into
 * typed records, and those into the series of the threads chart and of the
 * payload chart, the bars of the implementation comparison and the
 * per-implementation summary.
 *
 * Each chart is modelled as the data handed to matplotlib (which series, in
 * which order, with which points); drawing, file output and printing are not.
 * A CSV row is what `csv.DictReader` yields for a line: a map from column
 * name to cell text.
 */
module PlotResults {
  import opened Common
  import opened PyNumbers
  import opened PySort

  // =======================================================================
  // parse_row
  // =======================================================================

  /** A row as csv.DictReader yields it: column name to cell text. */
  type RawRow = map<string, string>

  /** The typed dict parse_row builds. */
  datatype Record = Record(
    impl: string,
    producers: int,
    consumers: int,
    payloadUs: int,
    durationS: int,
    throughputOps: Float,
    maxDepth: int)

  /** One of the seven columns parse_row reads. */
  predicate IsColumn(k: string)
  {
    k == "impl" || k == "P" || k == "C" || k == "payload_us" || k == "duration_s"
    || k == "throughput_ops" || k == "max_depth"
  }

  predicate HasColumns(r: RawRow)
  {
    && "impl" in r && "P" in r && "C" in r && "payload_us" in r && "duration_s" in r
    && "throughput_ops" in r && "max_depth" in r
  }

  /** Every column is present and every numeric cell survives int() or
      float(); otherwise parse_row catches a KeyError or ValueError. */
  predicate Coercible(r: RawRow)
  {
    && HasColumns(r)
    && PyInt(r["P"]).Some? && PyInt(r["C"]).Some? && PyInt(r["payload_us"]).Some?
    && PyInt(r["duration_s"]).Some? && PyFloat(r["throughput_ops"]).Some?
    && PyInt(r["max_depth"]).Some?
  }

  /** parse_row: the typed record, or None. */
  function ParseRow(r: RawRow): (out: Option<Record>)
    ensures out.None? <==> !Coercible(r)
    ensures out.Some? ==> out.value.impl == r["impl"]
    ensures out.Some? ==>
      && Some(out.value.producers) == PyInt(r["P"]) && Some(out.value.consumers) == PyInt(r["C"])
      && Some(out.value.payloadUs) == PyInt(r["payload_us"]) && Some(out.value.durationS) == PyInt(r["duration_s"])
      && Some(out.value.throughputOps) == PyFloat(r["throughput_ops"]) && Some(out.value.maxDepth) == PyInt(r["max_depth"])
  {
    if !HasColumns(r) then None
    else
      var p, c, payload := PyInt(r["P"]), PyInt(r["C"]), PyInt(r["payload_us"]);
      var duration, throughput, depth := PyInt(r["duration_s"]), PyFloat(r["throughput_ops"]), PyInt(r["max_depth"]);
      if p.None? || c.None? || payload.None? || duration.None? || throughput.None? || depth.None? then None
      else Some(Record(r["impl"], p.value, c.value, payload.value, duration.value, throughput.value, depth.value))
  }

  /** The row DictReader yields for a data line the benchmark appends with
      fprintf("%s,%d,%d,%d,%d,%.3f,%d\n"), the throughput given as a whole
      number of thousandths (what %.3f keeps of it). */
  function WrittenRow(impl: string, p: int, c: int, payloadUs: int, durationS: int,
                      thousandths: nat, maxDepth: int): RawRow
  {
    map["impl" := impl, "P" := IntToDecimal(p), "C" := IntToDecimal(c),
        "payload_us" := IntToDecimal(payloadUs), "duration_s" := IntToDecimal(durationS),
        "throughput_ops" := FixedThree(thousandths), "max_depth" := IntToDecimal(maxDepth)]
  }

  /** parse_row reads back every field the benchmark wrote; each integer
      field is a C int, so its text is well within int()'s digit bound. */
  lemma ParseWrittenRow(impl: string, p: int, c: int, payloadUs: int, durationS: int,
                        thousandths: nat, maxDepth: int)
    requires IsCInt(p) && IsCInt(c) && IsCInt(payloadUs) && IsCInt(durationS) && IsCInt(maxDepth)
    ensures ParseRow(WrittenRow(impl, p, c, payloadUs, durationS, thousandths, maxDepth))
         == Some(Record(impl, p, c, payloadUs, durationS, Finite(thousandths as real / 1000.0), maxDepth))
  {
    var r := WrittenRow(impl, p, c, payloadUs, durationS, thousandths, maxDepth);
    assert HasColumns(r);
    assert r["P"] == IntToDecimal(p) && r["C"] == IntToDecimal(c);
    assert r["payload_us"] == IntToDecimal(payloadUs) && r["duration_s"] == IntToDecimal(durationS);
    assert r["throughput_ops"] == FixedThree(thousandths) && r["max_depth"] == IntToDecimal(maxDepth);
    CIntDigits(p);
    PyIntOfDecimal(p);
    CIntDigits(c);
    PyIntOfDecimal(c);
    CIntDigits(payloadUs);
    PyIntOfDecimal(payloadUs);
    CIntDigits(durationS);
    PyIntOfDecimal(durationS);
    CIntDigits(maxDepth);
    PyIntOfDecimal(maxDepth);
    PyFloatOfFixedThree(thousandths);
  }

  /** The header line the benchmark writes before every appended row, read as
      a data row of a file that already has a header. */
  function HeaderRow(): RawRow
  {
    map["impl" := "impl", "P" := "P", "C" := "C", "payload_us" := "payload_us",
        "duration_s" := "duration_s", "throughput_ops" := "throughput_ops", "max_depth" := "max_depth"]
  }

  /** int('P') raises ValueError, so a repeated header line is dropped. */
  lemma HeaderRowIsDropped()
    ensures ParseRow(HeaderRow()) == None
  {
    assert HeaderRow()["P"] == "P";
    PyIntRejectsNonDigit("P");
  }

  /** A row any of whose numeric cells starts with one of the ASCII
      separators U+001C to U+001F is dropped: int() and float() do not strip
      them. */
  lemma SeparatorCellIsDropped(r: RawRow, k: string, c: char, rest: string)
    requires HasColumns(r) && IsColumn(k) && k != "impl"
    requires '\U{001C}' <= c <= '\U{001F}' && r[k] == [c] + rest
    ensures ParseRow(r) == None
  {
    SeparatorPrefixRejected(c, rest);
  }

  /** Columns other than the seven are ignored. */
  lemma ExtraColumnsIgnored(r: RawRow, extra: RawRow)
    requires forall k :: k in extra ==> !IsColumn(k)
    ensures ParseRow(r + extra) == ParseRow(r)
  {
    var m := r + extra;
    assert "impl" !in extra && "P" !in extra && "C" !in extra && "payload_us" !in extra;
    assert "duration_s" !in extra && "throughput_ops" !in extra && "max_depth" !in extra;
    assert HasColumns(m) == HasColumns(r);
    if HasColumns(r) {
      assert m["impl"] == r["impl"] && m["P"] == r["P"] && m["C"] == r["C"];
      assert m["payload_us"] == r["payload_us"] && m["duration_s"] == r["duration_s"];
      assert m["throughput_ops"] == r["throughput_ops"] && m["max_depth"] == r["max_depth"];
    }
  }

  /** `[r for r in parsed_rows if r is not None]`. */
  function Somes<T>(opts: seq<Option<T>>): (vals: seq<T>)
    ensures |vals| <= |opts|
    decreases |opts|
  {
    if opts == [] then []
    else
      var rest := Somes(opts[..|opts| - 1]);
      match opts[|opts| - 1]
      case None => rest
      case Some(x) => rest + [x]
  }

  /** Nothing is left exactly when every entry is None. */
  lemma {:induction false} SomesEmpty<T>(opts: seq<Option<T>>)
    ensures Somes(opts) == [] <==> forall i :: 0 <= i < |opts| ==> opts[i].None?
    decreases |opts|
  {
    if opts != [] {
      var front := opts[..|opts| - 1];
      SomesEmpty(front);
      assert forall i :: 0 <= i < |front| ==> front[i] == opts[i];
    }
  }

  /** Every value left comes from an entry that holds it. */
  lemma {:induction false} SomesFrom<T>(opts: seq<Option<T>>, x: T)
    requires x in Somes(opts)
    ensures exists i :: 0 <= i < |opts| && opts[i] == Some(x)
    decreases |opts|
  {
    var front := opts[..|opts| - 1];
    if opts[|opts| - 1] != Some(x) {
      assert x in Somes(front);
      SomesFrom(front, x);
      var i :| 0 <= i < |front| && front[i] == Some(x);
      assert opts[i] == front[i];
    }
  }

  /** `[parse_row(r) for r in rows]`. */
  function ParseRows(raw: seq<RawRow>): (parsed: seq<Option<Record>>)
    ensures |parsed| == |raw|
  {
    seq(|raw|, i requires 0 <= i < |raw| => ParseRow(raw[i]))
  }

  /** The parsed rows, the Nones filtered out. */
  function ParseAll(raw: seq<RawRow>): (rows: seq<Record>)
    ensures |rows| <= |raw|
  {
    Somes(ParseRows(raw))
  }

  /** Nothing is left exactly when no row parses. */
  lemma ParseAllEmpty(raw: seq<RawRow>)
    ensures ParseAll(raw) == [] <==> forall i :: 0 <= i < |raw| ==> ParseRow(raw[i]).None?
  {
    var parsed := ParseRows(raw);
    SomesEmpty(parsed);
    forall i | 0 <= i < |raw|
      ensures parsed[i].None? == ParseRow(raw[i]).None?
    {
      ParseRowsIndex(raw, i);
    }
  }

  lemma ParseRowsIndex(raw: seq<RawRow>, i: nat)
    requires i < |raw|
    ensures ParseRows(raw)[i] == ParseRow(raw[i])
  {
  }

  /** Every record left is what parse_row made of some row. */
  lemma ParseAllFrom(raw: seq<RawRow>)
    ensures forall x :: x in ParseAll(raw) ==> exists i :: 0 <= i < |raw| && ParseRow(raw[i]) == Some(x)
  {
    var parsed := ParseRows(raw);
    forall x | x in Somes(parsed)
      ensures exists i :: 0 <= i < |raw| && ParseRow(raw[i]) == Some(x)
    {
      SomesFrom(parsed, x);
      var i :| 0 <= i < |parsed| && parsed[i] == Some(x);
      assert ParseRow(raw[i]) == Some(x);
    }
  }

  // =======================================================================
  // Selecting and grouping records
  // =======================================================================

  /** The conditions the script filters records on. */
  datatype Filter =
    | PayloadIs(us: int)
    | ProducersAre(n: int)
    | ConsumersAre(n: int)
    | ImplIs(name: string)
    | Both(left: Filter, right: Filter)

  predicate Keeps(f: Filter, r: Record)
  {
    match f
    case PayloadIs(us) => r.payloadUs == us
    case ProducersAre(n) => r.producers == n
    case ConsumersAre(n) => r.consumers == n
    case ImplIs(name) => r.impl == name
    case Both(g, h) => Keeps(g, r) && Keeps(h, r)
  }

  /** The records f keeps, in input order. */
  function Select(rows: seq<Record>, f: Filter): (out: seq<Record>)
    ensures |out| <= |rows|
    decreases |rows|
  {
    if rows == [] then []
    else Select(rows[..|rows| - 1], f) + (if Keeps(f, rows[|rows| - 1]) then [rows[|rows| - 1]] else [])
  }

  /** Select keeps exactly the records f keeps. */
  lemma {:induction false} SelectMembers(rows: seq<Record>, f: Filter)
    ensures forall x :: x in Select(rows, f) <==> x in rows && Keeps(f, x)
    decreases |rows|
  {
    if rows != [] {
      var front := rows[..|rows| - 1];
      SelectMembers(front, f);
      assert rows == front + [rows[|rows| - 1]];
    }
  }

  /** A filter that keeps no record selects nothing. */
  lemma {:induction false} SelectNone(rows: seq<Record>, f: Filter)
    requires forall i :: 0 <= i < |rows| ==> !Keeps(f, rows[i])
    ensures Select(rows, f) == []
    decreases |rows|
  {
    if rows != [] {
      SelectNone(rows[..|rows| - 1], f);
    }
  }

  lemma SelectSnoc(rows: seq<Record>, r: Record, f: Filter)
    ensures Select(rows + [r], f) == Select(rows, f) + (if Keeps(f, r) then [r] else [])
  {
    assert (rows + [r])[..|rows|] == rows;
  }

  /** The elements of s, each once, in order of first occurrence (the key
      order of a dict filled from s). */
  function Distinct<T(==)>(s: seq<T>): seq<T>
    decreases |s|
  {
    if s == [] then []
    else
      var front := Distinct(s[..|s| - 1]);
      if s[|s| - 1] in front then front else front + [s[|s| - 1]]
  }

  /** Distinct lists each element of s exactly once. */
  lemma {:induction false} DistinctMembers<T>(s: seq<T>)
    ensures NoDups(Distinct(s))
    ensures forall x :: x in Distinct(s) <==> x in s
    decreases |s|
  {
    if s != [] {
      var front := s[..|s| - 1];
      DistinctMembers(front);
      assert s == front + [s[|s| - 1]];
    }
  }

  lemma DistinctSnoc<T>(s: seq<T>, x: T)
    ensures Distinct(s + [x]) == if x in Distinct(s) then Distinct(s) else Distinct(s) + [x]
  {
    assert (s + [x])[..|s|] == s;
  }

  function ProducersOf(rows: seq<Record>): (ps: seq<int>)
    ensures |ps| == |rows|
    decreases |rows|
  {
    if rows == [] then [] else ProducersOf(rows[..|rows| - 1]) + [rows[|rows| - 1].producers]
  }

  lemma {:induction false} ProducersOfIndex(rows: seq<Record>)
    ensures forall i :: 0 <= i < |rows| ==> ProducersOf(rows)[i] == rows[i].producers
    decreases |rows|
  {
    if rows != [] {
      ProducersOfIndex(rows[..|rows| - 1]);
    }
  }

  function Throughputs(rows: seq<Record>): (ts: seq<Float>)
    ensures |ts| == |rows|
    decreases |rows|
  {
    if rows == [] then [] else Throughputs(rows[..|rows| - 1]) + [rows[|rows| - 1].throughputOps]
  }

  function Depths(rows: seq<Record>): (ds: seq<int>)
    ensures |ds| == |rows|
    decreases |rows|
  {
    if rows == [] then [] else Depths(rows[..|rows| - 1]) + [rows[|rows| - 1].maxDepth]
  }

  /** The implementation names of rows, each once, in order of first
      occurrence: the keys of a defaultdict grouped by r['impl']. */
  function ImplNames(rows: seq<Record>): seq<string>
    decreases |rows|
  {
    if rows == [] then []
    else
      var front, k := ImplNames(rows[..|rows| - 1]), rows[|rows| - 1].impl;
      if k in front then front else front + [k]
  }

  /** Some record of rows belongs to implementation k. */
  ghost predicate HasImpl(rows: seq<Record>, k: string)
  {
    exists i :: 0 <= i < |rows| && rows[i].impl == k
  }

  /** The names are exactly those of the records. */
  lemma {:induction false} ImplNamesMembers(rows: seq<Record>)
    ensures forall k :: k in ImplNames(rows) <==> HasImpl(rows, k)
    decreases |rows|
  {
    if rows != [] {
      var front := rows[..|rows| - 1];
      ImplNamesMembers(front);
      forall k
        ensures HasImpl(rows, k) <==> HasImpl(front, k) || rows[|rows| - 1].impl == k
      {
        if HasImpl(rows, k) && rows[|rows| - 1].impl != k {
          var i :| 0 <= i < |rows| && rows[i].impl == k;
          assert front[i] == rows[i];
        }
        if HasImpl(front, k) {
          var i :| 0 <= i < |front| && front[i].impl == k;
          assert rows[i] == front[i];
        }
      }
    }
  }

  /** No name is listed twice. */
  lemma {:induction false} ImplNamesNoDups(rows: seq<Record>)
    ensures NoDups(ImplNames(rows))
    decreases |rows|
  {
    if rows != [] {
      ImplNamesNoDups(rows[..|rows| - 1]);
    }
  }

  lemma ImplNamesSnoc(rows: seq<Record>, r: Record)
    ensures ImplNames(rows + [r])
         == if r.impl in ImplNames(rows) then ImplNames(rows) else ImplNames(rows) + [r.impl]
  {
    assert (rows + [r])[..|rows|] == rows;
  }

  /** Sizes of the groups of rows with the names in ks. */
  function GroupSizes(rows: seq<Record>, ks: seq<string>): nat
    decreases |ks|
  {
    if ks == [] then 0 else |Select(rows, ImplIs(ks[0]))| + GroupSizes(rows, ks[1..])
  }

  lemma {:induction false} GroupSizesSnoc(rows: seq<Record>, r: Record, ks: seq<string>)
    ensures GroupSizes(rows + [r], ks) == GroupSizes(rows, ks) + multiset(ks)[r.impl]
    decreases |ks|
  {
    if ks != [] {
      SelectSnoc(rows, r, ImplIs(ks[0]));
      GroupSizesSnoc(rows, r, ks[1..]);
      assert ks == [ks[0]] + ks[1..];
    }
  }

  /** Grouping by name loses and duplicates nothing: when every row's name
      occurs exactly once in ks, the groups' sizes add up to the rows. */
  lemma {:induction false} GroupsPartition(rows: seq<Record>, ks: seq<string>)
    requires forall i :: 0 <= i < |rows| ==> multiset(ks)[rows[i].impl] == 1
    ensures GroupSizes(rows, ks) == |rows|
    decreases |rows|
  {
    if rows == [] {
      GroupSizesEmpty(ks);
    } else {
      var front := rows[..|rows| - 1];
      assert rows == front + [rows[|rows| - 1]];
      GroupsPartition(front, ks);
      GroupSizesSnoc(front, rows[|rows| - 1], ks);
    }
  }

  lemma {:induction false} GroupSizesEmpty(ks: seq<string>)
    ensures GroupSizes([], ks) == 0
    decreases |ks|
  {
    if ks != [] {
      GroupSizesEmpty(ks[1..]);
    }
  }

  // =======================================================================
  // The threads chart and the payload chart
  // =======================================================================

  /** fixed_payload of plot_threads_vs_metrics. */
  const FIXED_PAYLOAD: int := 100

  /** fixed_threads of plot_payload_vs_metrics. */
  const FIXED_THREADS: int := 2

  /** The x axis of a chart: threads (P) at a fixed payload, or payload at
      fixed P and C. */
  datatype Axis = ThreadsAxis | PayloadAxis

  /** The rows a chart keeps. */
  function ChartFilter(axis: Axis): Filter
  {
    match axis
    case ThreadsAxis => PayloadIs(FIXED_PAYLOAD)
    case PayloadAxis => Both(ProducersAre(FIXED_THREADS), ConsumersAre(FIXED_THREADS))
  }

  /** The tuple (x, throughput_ops, max_depth) appended to a series. */
  datatype Point = Point(x: int, throughputOps: Float, maxDepth: int)

  function PointOf(r: Record, axis: Axis): Point
  {
    Point(if axis == ThreadsAxis then r.producers else r.payloadUs, r.throughputOps, r.maxDepth)
  }

  /** The sort key `lambda x: x[0]`. */
  function PointX(p: Point): int
  {
    p.x
  }

  function Points(rows: seq<Record>, axis: Axis): (pts: seq<Point>)
    ensures |pts| == |rows|
    decreases |rows|
  {
    if rows == [] then [] else Points(rows[..|rows| - 1], axis) + [PointOf(rows[|rows| - 1], axis)]
  }

  lemma {:induction false} PointsIndex(rows: seq<Record>, axis: Axis)
    ensures forall i :: 0 <= i < |rows| ==> Points(rows, axis)[i] == PointOf(rows[i], axis)
    decreases |rows|
  {
    if rows != [] {
      PointsIndex(rows[..|rows| - 1], axis);
    }
  }

  /** `series[impl]` before sorting: the points of the kept rows of impl, in
      input order. */
  function Collected(rows: seq<Record>, axis: Axis, impl: string): (pts: seq<Point>)
    ensures |pts| <= |rows|
    decreases |rows|
  {
    if rows == [] then []
    else
      var r := rows[|rows| - 1];
      Collected(rows[..|rows| - 1], axis, impl)
      + (if Keeps(ChartFilter(axis), r) && r.impl == impl then [PointOf(r, axis)] else [])
  }

  /** A series is the points of the rows the chart keeps, narrowed to its
      implementation. */
  lemma {:induction false} CollectedIsSelect(rows: seq<Record>, axis: Axis, impl: string)
    ensures Collected(rows, axis, impl) == Points(Select(Select(rows, ChartFilter(axis)), ImplIs(impl)), axis)
    decreases |rows|
  {
    if rows != [] {
      var f, front, r := ChartFilter(axis), rows[..|rows| - 1], rows[|rows| - 1];
      CollectedIsSelect(front, axis, impl);
      assert rows == front + [r];
      SelectSnoc(front, r, f);
      var kept := Select(front, f);
      var group := Select(kept, ImplIs(impl));
      if Keeps(f, r) {
        assert Select(rows, f) == kept + [r];
        SelectSnoc(kept, r, ImplIs(impl));
        if r.impl == impl {
          assert Select(kept + [r], ImplIs(impl)) == group + [r];
          PointsSnoc(group, r, axis);
        } else {
          assert Select(kept + [r], ImplIs(impl)) == group;
        }
      } else {
        assert Select(rows, f) == kept;
      }
    }
  }

  /** One plotted line: an implementation and its points. */
  datatype Series = Series(impl: string, points: seq<Point>)

  function SeriesOf(rows: seq<Record>, axis: Axis, impl: string): Series
  {
    Series(impl, SortByKey(Collected(rows, axis, impl), PointX))
  }

  /** The chart: one series per implementation with a kept row, in sorted
      name order, each sorted by x. */
  function ChartOf(rows: seq<Record>, axis: Axis): seq<Series>
  {
    var names := SortStrings(ImplNames(Select(rows, ChartFilter(axis))));
    seq(|names|, i requires 0 <= i < |names| => SeriesOf(rows, axis, names[i]))
  }

  lemma CollectedSnoc(rows: seq<Record>, r: Record, axis: Axis, impl: string)
    ensures Collected(rows + [r], axis, impl)
         == Collected(rows, axis, impl)
            + (if Keeps(ChartFilter(axis), r) && r.impl == impl then [PointOf(r, axis)] else [])
  {
    assert (rows + [r])[..|rows|] == rows;
  }

  /** An implementation with no kept row has an empty series. */
  lemma CollectedAbsent(rows: seq<Record>, axis: Axis, impl: string)
    requires impl !in ImplNames(Select(rows, ChartFilter(axis)))
    ensures Collected(rows, axis, impl) == []
  {
    CollectedIsSelect(rows, axis, impl);
    ImplAbsent(Select(rows, ChartFilter(axis)), impl);
  }

  lemma PointsSnoc(rows: seq<Record>, r: Record, axis: Axis)
    ensures Points(rows + [r], axis) == Points(rows, axis) + [PointOf(r, axis)]
  {
    assert (rows + [r])[..|rows|] == rows;
  }

  /** The three facts the grouping loop keeps about the rows it has seen. */
  ghost predicate Grouped(seen: seq<Record>, axis: Axis, keys: seq<string>, series: map<string, seq<Point>>)
  {
    && keys == ImplNames(Select(seen, ChartFilter(axis)))
    && (forall k :: k in series <==> k in keys)
    && (forall k :: k in series ==> series[k] == Collected(seen, axis, k))
  }

  /** How one more row changes the names of the kept rows. */
  lemma GroupKeys(seen: seq<Record>, r: Record, axis: Axis)
    ensures var f, names := ChartFilter(axis), ImplNames(Select(seen, ChartFilter(axis)));
      ImplNames(Select(seen + [r], f))
      == if Keeps(f, r) && r.impl !in names then names + [r.impl] else names
  {
    var f := ChartFilter(axis);
    SelectSnoc(seen, r, f);
    if Keeps(f, r) {
      assert Select(seen + [r], f) == Select(seen, f) + [r];
      ImplNamesSnoc(Select(seen, f), r);
    } else {
      assert Select(seen + [r], f) == Select(seen, f);
    }
  }

  /** A row the chart does not keep changes nothing. */
  lemma GroupSkip(seen: seq<Record>, r: Record, axis: Axis, keys: seq<string>, series: map<string, seq<Point>>)
    requires Grouped(seen, axis, keys, series) && !Keeps(ChartFilter(axis), r)
    ensures keys == ImplNames(Select(seen + [r], ChartFilter(axis)))
    ensures forall k :: k in series ==> series[k] == Collected(seen + [r], axis, k)
  {
    GroupKeys(seen, r, axis);
    forall k | k in series
      ensures series[k] == Collected(seen + [r], axis, k)
    {
      CollectedSnoc(seen, r, axis, k);
    }
  }

  /** A kept row of an implementation seen before extends its list. */
  lemma GroupExisting(seen: seq<Record>, r: Record, axis: Axis, keys: seq<string>, series: map<string, seq<Point>>)
    requires Grouped(seen, axis, keys, series) && Keeps(ChartFilter(axis), r) && r.impl in series
    ensures var series' := series[r.impl := series[r.impl] + [PointOf(r, axis)]];
      && keys == ImplNames(Select(seen + [r], ChartFilter(axis)))
      && (forall k :: k in series' <==> k in keys)
      && (forall k :: k in series' ==> series'[k] == Collected(seen + [r], axis, k))
  {
    GroupKeys(seen, r, axis);
    var series' := series[r.impl := series[r.impl] + [PointOf(r, axis)]];
    forall k | k in series'
      ensures series'[k] == Collected(seen + [r], axis, k)
    {
      CollectedSnoc(seen, r, axis, k);
    }
  }

  /** The first kept row of an implementation starts its list. */
  lemma GroupNew(seen: seq<Record>, r: Record, axis: Axis, keys: seq<string>, series: map<string, seq<Point>>)
    requires Grouped(seen, axis, keys, series) && Keeps(ChartFilter(axis), r) && r.impl !in series
    ensures var series' := series[r.impl := [PointOf(r, axis)]];
      && keys + [r.impl] == ImplNames(Select(seen + [r], ChartFilter(axis)))
      && (forall k :: k in series' <==> k in keys + [r.impl])
      && (forall k :: k in series' ==> series'[k] == Collected(seen + [r], axis, k))
  {
    GroupKeys(seen, r, axis);
    CollectedAbsent(seen, axis, r.impl);
    CollectedSnoc(seen, r, axis, r.impl);
    var series' := series[r.impl := [PointOf(r, axis)]];
    forall k | k in series'
      ensures series'[k] == Collected(seen + [r], axis, k)
    {
      if k != r.impl {
        CollectedSnoc(seen, r, axis, k);
      }
    }
  }

  /** The body of the grouping loop for one row: skip it unless the chart
      keeps it, else append its point to its implementation's list, which
      the defaultdict creates empty on the implementation's first row. */
  method GroupRow(seen: seq<Record>, r: Record, axis: Axis, keys: seq<string>, series: map<string, seq<Point>>)
    returns (keys': seq<string>, series': map<string, seq<Point>>)
    requires Grouped(seen, axis, keys, series)
    ensures keys' == ImplNames(Select(seen + [r], ChartFilter(axis)))
    ensures forall k :: k in series' <==> k in keys'
    ensures forall k :: k in series' ==> series'[k] == Collected(seen + [r], axis, k)
  {
    if !Keeps(ChartFilter(axis), r) {
      GroupSkip(seen, r, axis, keys, series);
      keys', series' := keys, series;
    } else if r.impl in series {
      GroupExisting(seen, r, axis, keys, series);
      keys', series' := keys, series[r.impl := series[r.impl] + [PointOf(r, axis)]];
    } else {
      // the list defaultdict(list) creates, with the point appended
      GroupNew(seen, r, axis, keys, series);
      keys', series' := keys + [r.impl], series[r.impl := [PointOf(r, axis)]];
    }
  }

  /** The first loop of a chart: append each kept row's point to the list of
      its implementation, creating the list on the implementation's first
      row (keys records the dict's insertion order). */
  method GroupPoints(rows: seq<Record>, axis: Axis) returns (keys: seq<string>, series: map<string, seq<Point>>)
    ensures keys == ImplNames(Select(rows, ChartFilter(axis)))
    ensures forall k :: k in series <==> k in keys
    ensures forall k :: k in series ==> series[k] == Collected(rows, axis, k)
  {
    keys, series := [], map[];
    for i := 0 to |rows|
      invariant Grouped(rows[..i], axis, keys, series)
    {
      assert rows[..i + 1] == rows[..i] + [rows[i]];
      keys, series := GroupRow(rows[..i], rows[i], axis, keys, series);
    }
    assert rows[..|rows|] == rows;
  }

  /** `for impl in series: series[impl].sort(key=lambda x: x[0])`. */
  method SortSeries(keys: seq<string>, series: map<string, seq<Point>>) returns (sorted: map<string, seq<Point>>)
    requires NoDups(keys)
    requires forall k :: k in series <==> k in keys
    ensures forall k :: k in sorted <==> k in keys
    ensures forall k :: k in sorted ==> sorted[k] == SortByKey(series[k], PointX)
  {
    sorted := series;
    for j := 0 to |keys|
      invariant SortedUpTo(keys, j, series, sorted)
    {
      sorted := SortOne(keys, j, series, sorted);
    }
    assert keys[..|keys|] == keys;
  }

  /** The state of the sorting loop after the first j keys. */
  ghost predicate SortedUpTo(keys: seq<string>, j: nat, series: map<string, seq<Point>>, sorted: map<string, seq<Point>>)
    requires j <= |keys|
  {
    && (forall k :: k in series <==> k in keys)
    && (forall k :: k in sorted <==> k in keys)
    && (forall k :: k in sorted ==>
          sorted[k] == if k in keys[..j] then SortByKey(series[k], PointX) else series[k])
  }

  /** One step of the sorting loop: sort the list of the j-th key in place. */
  method SortOne(keys: seq<string>, j: nat, series: map<string, seq<Point>>, sorted: map<string, seq<Point>>)
    returns (sorted': map<string, seq<Point>>)
    requires j < |keys| && NoDups(keys)
    requires SortedUpTo(keys, j, series, sorted)
    ensures forall k :: k in sorted' <==> k in keys
    ensures forall k :: k in sorted' ==>
      sorted'[k] == if k in keys[..j + 1] then SortByKey(series[k], PointX) else series[k]
  {
    var k := keys[j];
    assert keys[..j + 1] == keys[..j] + [k];
    assert k !in keys[..j];
    sorted' := sorted[k := SortByKey(sorted[k], PointX)];
  }

  /** `for impl in sorted(series.keys())`: the series handed to ax.plot,
      in the order given. */
  method EmitSeries(names: seq<string>, series: map<string, seq<Point>>) returns (chart: seq<Series>)
    requires forall k :: k in names ==> k in series
    ensures |chart| == |names|
    ensures forall u :: 0 <= u < |names| ==> chart[u] == Series(names[u], series[names[u]])
  {
    chart := [];
    for t := 0 to |names|
      invariant |chart| == t
      invariant forall u :: 0 <= u < t ==> chart[u] == Series(names[u], series[names[u]])
    {
      chart := chart + [Series(names[t], series[names[t]])];
    }
  }

  /** The loops of plot_threads_vs_metrics (axis ThreadsAxis) and
      plot_payload_vs_metrics (axis PayloadAxis) up to the series they
      plot: group the kept rows by impl, sort each series by x, and emit the
      series in sorted impl order. */
  method PlotSeries(rows: seq<Record>, axis: Axis) returns (chart: seq<Series>)
    ensures chart == ChartOf(rows, axis)
  {
    var keys, series := GroupPoints(rows, axis);
    ImplNamesNoDups(Select(rows, ChartFilter(axis)));
    var sorted := SortSeries(keys, series);
    var names := SortStrings(keys);
    SameMembers(keys, names);
    chart := EmitSeries(names, sorted);
    forall u | 0 <= u < |chart|
      ensures chart[u] == SeriesOf(rows, axis, names[u])
    {
      assert names[u] in names;
    }
    ChartOfSeries(rows, axis, chart);
  }

  /** A list holding, for each sorted name, that implementation's series is
      the chart. */
  lemma ChartOfSeries(rows: seq<Record>, axis: Axis, chart: seq<Series>)
    requires var names := SortStrings(ImplNames(Select(rows, ChartFilter(axis))));
      && |chart| == |names|
      && forall u :: 0 <= u < |chart| ==> chart[u] == SeriesOf(rows, axis, names[u])
    ensures chart == ChartOf(rows, axis)
  {
  }

  /** Threads chart: payload 100, x = P. */
  method PlotThreadsVsMetrics(rows: seq<Record>) returns (chart: seq<Series>)
    ensures chart == ChartOf(rows, ThreadsAxis)
  {
    chart := PlotSeries(rows, ThreadsAxis);
  }

  /** Payload chart: P = C = 2, x = payload_us. */
  method PlotPayloadVsMetrics(rows: seq<Record>) returns (chart: seq<Series>)
    ensures chart == ChartOf(rows, PayloadAxis)
  {
    chart := PlotSeries(rows, PayloadAxis);
  }

  /** Names in ascending str order, each once. */
  ghost predicate AscendingDistinct(names: seq<string>)
  {
    forall i, j :: 0 <= i < j < |names| ==> StrLe(names[i], names[j]) && names[i] != names[j]
  }

  /** sorted() of the implementation names of some records: ascending,
      each name once, exactly the records' names. */
  lemma SortedNames(rows: seq<Record>)
    ensures var names := SortStrings(ImplNames(rows));
      && AscendingDistinct(names)
      && (forall k :: k in names <==> HasImpl(rows, k))
  {
    var distinct := ImplNames(rows);
    var names := SortStrings(distinct);
    SortStringsSorted(distinct);
    ImplNamesNoDups(rows);
    NoDupsOfPermutation(distinct, names);
    ImplNamesMembers(rows);
    SameMembers(distinct, names);
  }

  lemma SameMembers(a: seq<string>, b: seq<string>)
    requires multiset(a) == multiset(b)
    ensures forall k :: k in a <==> k in b
  {
    forall k
      ensures k in a <==> k in b
    {
      assert k in a <==> k in multiset(a);
      assert k in b <==> k in multiset(b);
    }
  }

  /** The chart's series are named by the sorted names. */
  lemma ChartImpls(rows: seq<Record>, axis: Axis)
    ensures var names := SortStrings(ImplNames(Select(rows, ChartFilter(axis))));
      var chart := ChartOf(rows, axis);
      |chart| == |names| && forall i :: 0 <= i < |chart| ==> chart[i].impl == names[i]
  {
  }

  /** A chart has one series per implementation that has a kept row, each
      once, in ascending name order. */
  lemma ChartNames(rows: seq<Record>, axis: Axis)
    ensures var chart := ChartOf(rows, axis);
      && (forall i, j :: 0 <= i < j < |chart| ==> StrLe(chart[i].impl, chart[j].impl) && chart[i].impl != chart[j].impl)
      && (forall k :: HasImpl(Select(rows, ChartFilter(axis)), k)
                  <==> exists i :: 0 <= i < |chart| && chart[i].impl == k)
  {
    var kept := Select(rows, ChartFilter(axis));
    var names := SortStrings(ImplNames(kept));
    var chart := ChartOf(rows, axis);
    ChartImpls(rows, axis);
    SortedNames(kept);
    forall i, j | 0 <= i < j < |chart|
      ensures StrLe(chart[i].impl, chart[j].impl) && chart[i].impl != chart[j].impl
    {
      assert chart[i].impl == names[i] && chart[j].impl == names[j];
    }
    forall k
      ensures HasImpl(kept, k) <==> exists i :: 0 <= i < |chart| && chart[i].impl == k
    {
      if HasImpl(kept, k) {
        var i :| 0 <= i < |names| && names[i] == k;
        assert chart[i].impl == k;
      }
      if i :| 0 <= i < |chart| && chart[i].impl == k {
        assert names[i] in names;
      }
    }
  }

  /** Each series holds exactly the points of its implementation's kept
      rows, sorted by x, rows with equal x in input order. */
  lemma SeriesContents(rows: seq<Record>, axis: Axis, impl: string, v: int)
    ensures var s := SeriesOf(rows, axis, impl);
      && SortedByKey(s.points, PointX)
      && multiset(s.points) == multiset(Collected(rows, axis, impl))
      && WithKey(s.points, PointX, v) == WithKey(Collected(rows, axis, impl), PointX, v)
  {
    SortByKeySorted(Collected(rows, axis, impl), PointX);
    SortByKeyStable(Collected(rows, axis, impl), PointX, v);
  }

  /** A point is in an implementation's series exactly when it comes from a
      kept row of that implementation. */
  lemma {:induction false} CollectedMembers(rows: seq<Record>, axis: Axis, impl: string, p: Point)
    ensures p in Collected(rows, axis, impl)
        <==> exists j :: 0 <= j < |rows| && Keeps(ChartFilter(axis), rows[j]) && rows[j].impl == impl
                         && p == PointOf(rows[j], axis)
    decreases |rows|
  {
    if rows != [] {
      var front, last := rows[..|rows| - 1], |rows| - 1;
      CollectedMembers(front, axis, impl, p);
      if j :| 0 <= j < |rows| && Keeps(ChartFilter(axis), rows[j]) && rows[j].impl == impl && p == PointOf(rows[j], axis) {
        if j < last {
          assert front[j] == rows[j];
        }
      }
      if j :| 0 <= j < |front| && Keeps(ChartFilter(axis), front[j]) && front[j].impl == impl && p == PointOf(front[j], axis) {
        assert rows[j] == front[j];
      }
    }
  }

  function TotalPoints(chart: seq<Series>): nat
    decreases |chart|
  {
    if chart == [] then 0 else |chart[0].points| + TotalPoints(chart[1..])
  }

  lemma {:induction false} TotalPointsOfNames(rows: seq<Record>, axis: Axis, names: seq<string>, chart: seq<Series>)
    requires |chart| == |names|
    requires forall i :: 0 <= i < |chart| ==> chart[i] == SeriesOf(rows, axis, names[i])
    ensures TotalPoints(chart) == GroupSizes(Select(rows, ChartFilter(axis)), names)
    decreases |names|
  {
    if names != [] {
      TotalPointsOfNames(rows, axis, names[1..], chart[1..]);
      CollectedIsSelect(rows, axis, names[0]);
    }
  }

  /** The series partition the kept rows: every kept row gives exactly one
      point, nothing is dropped or merged. */
  lemma ChartPartition(rows: seq<Record>, axis: Axis)
    ensures TotalPoints(ChartOf(rows, axis)) == |Select(rows, ChartFilter(axis))|
  {
    var kept := Select(rows, ChartFilter(axis));
    var distinct := ImplNames(kept);
    var names := SortStrings(distinct);
    TotalPointsOfNames(rows, axis, names, ChartOf(rows, axis));
    ImplNamesNoDups(kept);
    ImplNamesMembers(kept);
    forall i | 0 <= i < |kept|
      ensures multiset(names)[kept[i].impl] == 1
    {
      assert HasImpl(kept, kept[i].impl);
      NoDupsCountOne(distinct, kept[i].impl);
    }
    GroupsPartition(kept, names);
  }

  // =======================================================================
  // plot_implementation_comparison
  // =======================================================================

  /** The rows compared: P = 2, C = 2, payload 100. */
  const COMPARISON: Filter := Both(Both(ProducersAre(2), ConsumersAre(2)), PayloadIs(100))

  /** The position of the first row of `impl`. */
  function FirstIndex(rows: seq<Record>, impl: string): (i: nat)
    requires HasImpl(rows, impl)
    ensures i < |rows| && rows[i].impl == impl
    ensures forall j :: 0 <= j < i ==> rows[j].impl != impl
    decreases |rows|
  {
    if rows[0].impl == impl then 0
    else
      assert HasImpl(rows[1..], impl) by {
        var k :| 0 <= k < |rows| && rows[k].impl == impl;
        assert rows[1..][k - 1] == rows[k];
      }
      var k := FirstIndex(rows[1..], impl);
      assert forall j :: 1 <= j <= k ==> rows[j] == rows[1..][j - 1];
      1 + k
  }

  /** `next(r for r in rows if r['impl'] == impl)`. */
  function FirstOf(rows: seq<Record>, impl: string): (r: Record)
    requires HasImpl(rows, impl)
    ensures exists i :: 0 <= i < |rows| && rows[i] == r && r.impl == impl
                        && forall j :: 0 <= j < i ==> rows[j].impl != impl
  {
    rows[FirstIndex(rows, impl)]
  }

  /** One bar of each of the two bar charts. */
  datatype Bar = Bar(impl: string, throughputOps: Float, maxDepth: int)

  /** One bar per name, valued from the first row of that implementation. */
  function BarsFor(filtered: seq<Record>, names: seq<string>): (bars: seq<Bar>)
    requires forall i :: 0 <= i < |names| ==> HasImpl(filtered, names[i])
    ensures |bars| == |names|
    ensures forall i :: 0 <= i < |names| ==>
      && bars[i].impl == names[i]
      && exists j :: 0 <= j < |filtered| && filtered[j].impl == names[i]
           && bars[i].throughputOps == filtered[j].throughputOps && bars[i].maxDepth == filtered[j].maxDepth
           && forall m :: 0 <= m < j ==> filtered[m].impl != names[i]
  {
    seq(|names|, i requires 0 <= i < |names| =>
      var r := FirstOf(filtered, names[i]);
      Bar(names[i], r.throughputOps, r.maxDepth))
  }

  /** None when nothing matches (the warning path); otherwise one bar per
      implementation, in sorted order, valued from its first matching row. */
  function PlotImplementationComparison(rows: seq<Record>): (bars: Option<seq<Bar>>)
    ensures bars.None? <==> forall i :: 0 <= i < |rows| ==> !Keeps(COMPARISON, rows[i])
  {
    var filtered := Select(rows, COMPARISON);
    SelectMembers(rows, COMPARISON);
    if filtered == [] then
      assert forall i :: 0 <= i < |rows| ==> !Keeps(COMPARISON, rows[i]) by {
        forall i | 0 <= i < |rows| ensures !Keeps(COMPARISON, rows[i]) {
          assert rows[i] in rows;
        }
      }
      None
    else
      assert filtered[0] in rows;
      var names := SortStrings(ImplNames(filtered));
      SortedNames(filtered);
      assert forall i :: 0 <= i < |names| ==> HasImpl(filtered, names[i]) by {
        forall i | 0 <= i < |names| ensures HasImpl(filtered, names[i]) {
          assert names[i] in names;
        }
      }
      Some(BarsFor(filtered, names))
  }

  /** The bars name distinct implementations in ascending order. */
  ghost predicate BarsAscending(bars: seq<Bar>)
  {
    forall i, j :: 0 <= i < j < |bars| ==> StrLe(bars[i].impl, bars[j].impl) && bars[i].impl != bars[j].impl
  }

  /** The bars name exactly the implementations of the rows. */
  ghost predicate BarsCover(filtered: seq<Record>, bars: seq<Bar>)
  {
    forall k :: HasImpl(filtered, k) <==> exists i :: 0 <= i < |bars| && bars[i].impl == k
  }

  /** The bar is valued from the first row of its implementation. */
  ghost predicate FromFirstRow(filtered: seq<Record>, bar: Bar)
  {
    exists j :: 0 <= j < |filtered| && filtered[j].impl == bar.impl
      && bar.throughputOps == filtered[j].throughputOps && bar.maxDepth == filtered[j].maxDepth
      && forall m :: 0 <= m < j ==> filtered[m].impl != bar.impl
  }

  /** Each bar is valued from the first row of its implementation. */
  ghost predicate BarsFromFirstRows(filtered: seq<Record>, bars: seq<Bar>)
  {
    forall i :: 0 <= i < |bars| ==> FromFirstRow(filtered, bars[i])
  }

  /** The bars name distinct implementations in ascending order, exactly
      those of the rows, each valued from the first row of its
      implementation. */
  ghost predicate DescribesBars(filtered: seq<Record>, bars: seq<Bar>)
  {
    BarsAscending(bars) && BarsCover(filtered, bars) && BarsFromFirstRows(filtered, bars)
  }

  /** The comparison chart's bars are described by the matching rows. */
  lemma ComparisonBars(rows: seq<Record>)
    requires PlotImplementationComparison(rows).Some?
    ensures DescribesBars(Select(rows, COMPARISON), PlotImplementationComparison(rows).value)
  {
    ComparisonOfNames(rows);
    BarsOfSortedNames(Select(rows, COMPARISON));
  }

  /** The bars for the sorted implementation names of some rows are
      described by those rows. */
  lemma BarsOfSortedNames(filtered: seq<Record>)
    ensures forall i :: 0 <= i < |SortStrings(ImplNames(filtered))| ==> HasImpl(filtered, SortStrings(ImplNames(filtered))[i])
    ensures DescribesBars(filtered, BarsFor(filtered, SortStrings(ImplNames(filtered))))
  {
    SortedNames(filtered);
    BarsOfNames(filtered, SortStrings(ImplNames(filtered)));
  }

  /** The bars drawn are those of the sorted implementation names. */
  lemma ComparisonOfNames(rows: seq<Record>)
    requires PlotImplementationComparison(rows).Some?
    ensures var filtered := Select(rows, COMPARISON);
      forall i :: 0 <= i < |SortStrings(ImplNames(filtered))| ==> HasImpl(filtered, SortStrings(ImplNames(filtered))[i])
    ensures var filtered := Select(rows, COMPARISON);
      PlotImplementationComparison(rows).value == BarsFor(filtered, SortStrings(ImplNames(filtered)))
  {
    var filtered := Select(rows, COMPARISON);
    ComparisonMatches(rows);
    SortedNamesHaveRows(filtered);
    assert PlotImplementationComparison(rows) == Some(BarsFor(filtered, SortStrings(ImplNames(filtered))));
  }

  lemma ComparisonMatches(rows: seq<Record>)
    requires PlotImplementationComparison(rows).Some?
    ensures Select(rows, COMPARISON) != []
  {
  }

  lemma SortedNamesHaveRows(filtered: seq<Record>)
    ensures forall i :: 0 <= i < |SortStrings(ImplNames(filtered))| ==> HasImpl(filtered, SortStrings(ImplNames(filtered))[i])
  {
    var names := SortStrings(ImplNames(filtered));
    SortedNames(filtered);
    assert forall i :: 0 <= i < |names| ==> names[i] in names;
  }

  /** The bars for sorted, distinct names that are exactly the names of
      the rows. */
  lemma BarsOfNames(filtered: seq<Record>, names: seq<string>)
    requires AscendingDistinct(names)
    requires forall k :: k in names <==> HasImpl(filtered, k)
    ensures forall i :: 0 <= i < |names| ==> HasImpl(filtered, names[i])
    ensures DescribesBars(filtered, BarsFor(filtered, names))
  {
    assert forall i :: 0 <= i < |names| ==> names[i] in names;
    BarsOfAscendingNames(filtered, names);
    BarsCoverNames(filtered, names);
    BarsOfFirstRows(filtered, names);
  }

  lemma BarsOfAscendingNames(filtered: seq<Record>, names: seq<string>)
    requires AscendingDistinct(names)
    requires forall i :: 0 <= i < |names| ==> HasImpl(filtered, names[i])
    ensures BarsAscending(BarsFor(filtered, names))
  {
  }

  lemma BarsCoverNames(filtered: seq<Record>, names: seq<string>)
    requires forall k :: k in names <==> HasImpl(filtered, k)
    requires forall i :: 0 <= i < |names| ==> HasImpl(filtered, names[i])
    ensures BarsCover(filtered, BarsFor(filtered, names))
  {
    var bars := BarsFor(filtered, names);
    forall k | HasImpl(filtered, k)
      ensures exists i :: 0 <= i < |bars| && bars[i].impl == k
    {
      var i :| 0 <= i < |names| && names[i] == k;
      assert bars[i].impl == k;
    }
  }

  lemma BarsOfFirstRows(filtered: seq<Record>, names: seq<string>)
    requires forall i :: 0 <= i < |names| ==> HasImpl(filtered, names[i])
    ensures BarsFromFirstRows(filtered, BarsFor(filtered, names))
  {
    var bars := BarsFor(filtered, names);
    forall i | 0 <= i < |bars|
      ensures FromFirstRow(filtered, bars[i])
    {
      var j := FirstIndex(filtered, names[i]);
      assert bars[i] == Bar(names[i], filtered[j].throughputOps, filtered[j].maxDepth);
    }
  }

  // =======================================================================
  // generate_summary_table
  // =======================================================================

  /** The scaling line: the smallest and the largest P among the payload-100
      rows, with the throughputs averaged for each (the mean and the speedup
      division are not modelled). */
  datatype Scaling = Scaling(lowThreads: int, lowThroughputs: seq<Float>,
                             highThreads: int, highThroughputs: seq<Float>)

  /** What the summary prints for one implementation, before numpy turns the
      lists into mean, min and max. */
  datatype SummaryEntry = SummaryEntry(impl: string, throughputs: seq<Float>, depths: seq<int>,
                                       scaling: Option<Scaling>)

  /** `sorted(thread_data.keys())`: the distinct P of the payload-100 rows,
      ascending. */
  function ThreadKeys(results: seq<Record>): seq<int>
  {
    SortByKey(Distinct(ProducersOf(Select(results, PayloadIs(100)))), IntKey)
  }

  /** The scaling line of one implementation's rows, if thread_data has
      more than one key. */
  function ScalingOf(results: seq<Record>): Option<Scaling>
  {
    var at100 := Select(results, PayloadIs(100));
    var threads := ThreadKeys(results);
    if |threads| > 1 then
      Some(Scaling(threads[0], Throughputs(Select(at100, ProducersAre(threads[0]))),
                   threads[|threads| - 1], Throughputs(Select(at100, ProducersAre(threads[|threads| - 1])))))
    else None
  }

  /** The summary of the rows of one implementation. */
  function Summarize(impl: string, results: seq<Record>): SummaryEntry
  {
    SummaryEntry(impl, Throughputs(results), Depths(results), ScalingOf(results))
  }

  /** The whole summary: one entry per implementation, in sorted order. */
  function SummaryOf(rows: seq<Record>): seq<SummaryEntry>
  {
    var names := SortStrings(ImplNames(rows));
    seq(|names|, i requires 0 <= i < |names| => Summarize(names[i], Select(rows, ImplIs(names[i]))))
  }

  /** The keys of thread_data: the P of the payload-100 rows. */
  lemma FixedPayloadThreads(results: seq<Record>)
    ensures forall p :: (p in ProducersOf(Select(results, PayloadIs(100)))
      <==> exists i :: 0 <= i < |results| && results[i].payloadUs == 100 && results[i].producers == p)
  {
    var at100 := Select(results, PayloadIs(100));
    var ps := ProducersOf(at100);
    ProducersOfIndex(at100);
    SelectMembers(results, PayloadIs(100));
    forall p
      ensures p in ps <==> exists i :: 0 <= i < |results| && results[i].payloadUs == 100 && results[i].producers == p
    {
      if p in ps {
        var k :| 0 <= k < |ps| && ps[k] == p;
        assert at100[k] in results;
      }
      if i :| 0 <= i < |results| && results[i].payloadUs == 100 && results[i].producers == p {
        assert results[i] in at100;
        var k :| 0 <= k < |at100| && at100[k] == results[i];
        assert ps[k] == p;
      }
    }
  }

  /** The payload-100 rows have two different P exactly when their P
      list has two distinct values. */
  lemma TwoThreadCounts(results: seq<Record>)
    ensures |Distinct(ProducersOf(Select(results, PayloadIs(100))))| > 1 <==>
      exists i, j :: 0 <= i < |results| && 0 <= j < |results|
        && results[i].payloadUs == 100 && results[j].payloadUs == 100
        && results[i].producers != results[j].producers
  {
    var ps := ProducersOf(Select(results, PayloadIs(100)));
    FixedPayloadThreads(results);
    if |Distinct(ps)| > 1 {
      TwoDistinctValues(ps);
      var a, b := Distinct(ps)[0], Distinct(ps)[1];
      var i :| 0 <= i < |results| && results[i].payloadUs == 100 && results[i].producers == a;
      var j :| 0 <= j < |results| && results[j].payloadUs == 100 && results[j].producers == b;
      assert results[i].producers != results[j].producers;
    } else {
      forall i, j | (0 <= i < |results| && 0 <= j < |results|
                     && results[i].payloadUs == 100 && results[j].payloadUs == 100)
        ensures results[i].producers == results[j].producers
      {
        OneDistinctValue(ps, results[i].producers, results[j].producers);
      }
    }
  }

  /** With two distinct values or more, the first two are two different
      elements. */
  lemma TwoDistinctValues(ps: seq<int>)
    requires |Distinct(ps)| > 1
    ensures Distinct(ps)[0] in ps && Distinct(ps)[1] in ps && Distinct(ps)[0] != Distinct(ps)[1]
  {
    DistinctMembers(ps);
    assert Distinct(ps)[0] in Distinct(ps) && Distinct(ps)[1] in Distinct(ps);
  }

  /** With at most one distinct value, any two elements are equal. */
  lemma OneDistinctValue(ps: seq<int>, a: int, b: int)
    requires |Distinct(ps)| <= 1 && a in ps && b in ps
    ensures a == b
  {
    DistinctMembers(ps);
    var d := Distinct(ps);
    assert a in d && b in d;
    assert d == [d[0]];
  }

  /** The speedup line appears exactly when the payload-100 rows have two
      different P. */
  lemma ScalingPresent(results: seq<Record>)
    ensures ScalingOf(results).Some? <==>
      exists i, j :: 0 <= i < |results| && 0 <= j < |results|
        && results[i].payloadUs == 100 && results[j].payloadUs == 100
        && results[i].producers != results[j].producers
  {
    TwoThreadCounts(results);
  }

  /** With two thread counts or more, the speedup line compares the
      smallest P of the payload-100 rows with the largest. */
  lemma ScalingEnds(results: seq<Record>)
    ensures var threads := ThreadKeys(results);
      |threads| > 1 ==>
        && threads[0] < threads[|threads| - 1]
        && (exists i :: 0 <= i < |results| && results[i].payloadUs == 100 && results[i].producers == threads[0])
        && (exists i :: 0 <= i < |results| && results[i].payloadUs == 100
                        && results[i].producers == threads[|threads| - 1])
        && (forall i :: 0 <= i < |results| && results[i].payloadUs == 100 ==>
              threads[0] <= results[i].producers <= threads[|threads| - 1])
  {
    var ps := ProducersOf(Select(results, PayloadIs(100)));
    var threads := ThreadKeys(results);
    FixedPayloadThreads(results);
    DistinctSortedEnds(ps);
    if |threads| > 1 {
      forall i | 0 <= i < |results| && results[i].payloadUs == 100
        ensures threads[0] <= results[i].producers <= threads[|threads| - 1]
      {
        assert results[i].producers in ps;
      }
    }
  }

  /** `sorted(thread_data.keys())` with two keys or more: its ends are two
      different keys, the smallest and the largest. */
  lemma DistinctSortedEnds(ps: seq<int>)
    ensures var threads := SortByKey(Distinct(ps), IntKey);
      |threads| > 1 ==>
        && threads[0] < threads[|threads| - 1]
        && threads[0] in ps && threads[|threads| - 1] in ps
        && forall p :: p in ps ==> threads[0] <= p <= threads[|threads| - 1]
  {
    var distinct := Distinct(ps);
    var threads := SortByKey(distinct, IntKey);
    if |threads| > 1 {
      var low, high := threads[0], threads[|threads| - 1];
      DistinctMembers(ps);
      SortedIntsEnds(distinct);
      assert low in distinct && high in distinct;
      forall p | p in ps
        ensures low <= p <= high
      {
        assert p in distinct;
      }
      NoDupsOfPermutation(distinct, threads);
      assert low != high;
    }
  }

  /** Each end of the speedup line carries the throughputs of the
      payload-100 rows with that P, in input order. */
  lemma ScalingThroughputs(results: seq<Record>)
    requires ScalingOf(results).Some?
    ensures var s := ScalingOf(results).value;
      && s.lowThroughputs == Throughputs(Select(results, Both(PayloadIs(100), ProducersAre(s.lowThreads))))
      && s.highThroughputs == Throughputs(Select(results, Both(PayloadIs(100), ProducersAre(s.highThreads))))
  {
    var s := ScalingOf(results).value;
    SelectNested(results, PayloadIs(100), ProducersAre(s.lowThreads));
    SelectNested(results, PayloadIs(100), ProducersAre(s.highThreads));
  }

  /** Filtering twice is filtering on both conditions. */
  lemma {:induction false} SelectNested(rows: seq<Record>, f: Filter, g: Filter)
    ensures Select(Select(rows, f), g) == Select(rows, Both(f, g))
    decreases |rows|
  {
    if rows != [] {
      var front, r := rows[..|rows| - 1], rows[|rows| - 1];
      SelectNested(front, f, g);
      assert rows == front + [r];
      SelectSnoc(front, r, f);
      SelectSnoc(front, r, Both(f, g));
      if Keeps(f, r) {
        assert Select(rows, f) == Select(front, f) + [r];
        SelectSnoc(Select(front, f), r, g);
      } else {
        assert Select(rows, f) == Select(front, f);
      }
    }
  }

  /** The summary has one entry per implementation with a parsed row, each
      once, in ascending order, listing the throughputs and depths of all of
      that implementation's rows in input order. */
  lemma SummaryEntries(rows: seq<Record>)
    ensures var summary := SummaryOf(rows);
      && (forall i, j :: 0 <= i < j < |summary| ==> StrLe(summary[i].impl, summary[j].impl) && summary[i].impl != summary[j].impl)
      && (forall k :: HasImpl(rows, k) <==> exists i :: 0 <= i < |summary| && summary[i].impl == k)
      && (forall i :: 0 <= i < |summary| ==>
            summary[i].throughputs == Throughputs(Select(rows, ImplIs(summary[i].impl)))
            && summary[i].depths == Depths(Select(rows, ImplIs(summary[i].impl))))
  {
    SummaryImpls(rows);
    SortedNames(rows);
    EntriesOfNames(rows, SortStrings(ImplNames(rows)), SummaryOf(rows));
  }

  /** Entries named by sorted, distinct names that are exactly the names of
      the rows. */
  lemma EntriesOfNames(rows: seq<Record>, names: seq<string>, summary: seq<SummaryEntry>)
    requires AscendingDistinct(names)
    requires forall k :: k in names <==> HasImpl(rows, k)
    requires |summary| == |names|
    requires forall i :: 0 <= i < |summary| ==>
      && summary[i].impl == names[i]
      && summary[i].throughputs == Throughputs(Select(rows, ImplIs(names[i])))
      && summary[i].depths == Depths(Select(rows, ImplIs(names[i])))
    ensures forall i, j :: 0 <= i < j < |summary| ==>
      StrLe(summary[i].impl, summary[j].impl) && summary[i].impl != summary[j].impl
    ensures forall k :: HasImpl(rows, k) <==> exists i :: 0 <= i < |summary| && summary[i].impl == k
    ensures forall i :: 0 <= i < |summary| ==>
      summary[i].throughputs == Throughputs(Select(rows, ImplIs(summary[i].impl)))
      && summary[i].depths == Depths(Select(rows, ImplIs(summary[i].impl)))
  {
    forall k
      ensures HasImpl(rows, k) <==> exists i :: 0 <= i < |summary| && summary[i].impl == k
    {
      if HasImpl(rows, k) {
        var i :| 0 <= i < |names| && names[i] == k;
        assert summary[i].impl == k;
      }
      if i :| 0 <= i < |summary| && summary[i].impl == k {
        assert names[i] in names;
      }
    }
  }

  /** The summary's entries are those of the sorted names. */
  lemma SummaryImpls(rows: seq<Record>)
    ensures var names := SortStrings(ImplNames(rows));
      var summary := SummaryOf(rows);
      && |summary| == |names|
      && forall i :: 0 <= i < |summary| ==>
           && summary[i].impl == names[i]
           && summary[i].throughputs == Throughputs(Select(rows, ImplIs(names[i])))
           && summary[i].depths == Depths(Select(rows, ImplIs(names[i])))
  {
  }

  /** The facts the thread_data loop keeps about the rows it has seen:
      pkeys is thread_data's key order. */
  ghost predicate ThreadGrouped(seen: seq<Record>, pkeys: seq<int>, threadData: map<int, seq<Record>>)
  {
    && pkeys == Distinct(ProducersOf(Select(seen, PayloadIs(100))))
    && (forall p :: p in threadData <==> p in pkeys)
    && (forall p :: p in threadData ==> threadData[p] == Select(Select(seen, PayloadIs(100)), ProducersAre(p)))
  }

  /** How one more row changes the P of the payload-100 rows. */
  lemma ThreadKeysSnoc(seen: seq<Record>, r: Record)
    ensures var keys := Distinct(ProducersOf(Select(seen, PayloadIs(100))));
      Distinct(ProducersOf(Select(seen + [r], PayloadIs(100))))
      == if r.payloadUs == 100 && r.producers !in keys then keys + [r.producers] else keys
  {
    var before := Select(seen, PayloadIs(100));
    SelectSnoc(seen, r, PayloadIs(100));
    if r.payloadUs == 100 {
      assert Select(seen + [r], PayloadIs(100)) == before + [r];
      assert ProducersOf(before + [r]) == ProducersOf(before) + [r.producers] by {
        assert (before + [r])[..|before|] == before;
      }
      DistinctSnoc(ProducersOf(before), r.producers);
    } else {
      assert Select(seen + [r], PayloadIs(100)) == before;
    }
  }

  /** How one more row changes the payload-100 rows with a given P. */
  lemma ThreadRowsSnoc(seen: seq<Record>, r: Record, p: int)
    ensures Select(Select(seen + [r], PayloadIs(100)), ProducersAre(p))
         == Select(Select(seen, PayloadIs(100)), ProducersAre(p))
            + (if r.payloadUs == 100 && r.producers == p then [r] else [])
  {
    var before := Select(seen, PayloadIs(100));
    SelectSnoc(seen, r, PayloadIs(100));
    if r.payloadUs == 100 {
      assert Select(seen + [r], PayloadIs(100)) == before + [r];
      SelectSnoc(before, r, ProducersAre(p));
    } else {
      assert Select(seen + [r], PayloadIs(100)) == before;
    }
  }

  /** A P that no payload-100 row has selects nothing. */
  lemma ThreadRowsAbsent(seen: seq<Record>, p: int)
    requires p !in Distinct(ProducersOf(Select(seen, PayloadIs(100))))
    ensures Select(Select(seen, PayloadIs(100)), ProducersAre(p)) == []
  {
    var before := Select(seen, PayloadIs(100));
    DistinctMembers(ProducersOf(before));
    ProducersOfIndex(before);
    forall i | 0 <= i < |before|
      ensures !Keeps(ProducersAre(p), before[i])
    {
      assert ProducersOf(before)[i] in ProducersOf(before);
    }
    SelectNone(before, ProducersAre(p));
  }

  /** A row whose payload is not 100 changes nothing. */
  lemma ThreadSkip(seen: seq<Record>, r: Record, pkeys: seq<int>, threadData: map<int, seq<Record>>)
    requires ThreadGrouped(seen, pkeys, threadData) && r.payloadUs != 100
    ensures pkeys == Distinct(ProducersOf(Select(seen + [r], PayloadIs(100))))
    ensures forall p :: p in threadData ==>
      threadData[p] == Select(Select(seen + [r], PayloadIs(100)), ProducersAre(p))
  {
    ThreadKeysSnoc(seen, r);
    forall p | p in threadData
      ensures threadData[p] == Select(Select(seen + [r], PayloadIs(100)), ProducersAre(p))
    {
      ThreadRowsSnoc(seen, r, p);
    }
  }

  /** A payload-100 row with a P seen before extends that P's list. */
  lemma ThreadExisting(seen: seq<Record>, r: Record, pkeys: seq<int>, threadData: map<int, seq<Record>>)
    requires ThreadGrouped(seen, pkeys, threadData) && r.payloadUs == 100 && r.producers in threadData
    ensures var threadData' := threadData[r.producers := threadData[r.producers] + [r]];
      && pkeys == Distinct(ProducersOf(Select(seen + [r], PayloadIs(100))))
      && (forall p :: p in threadData' <==> p in pkeys)
      && (forall p :: p in threadData' ==>
            threadData'[p] == Select(Select(seen + [r], PayloadIs(100)), ProducersAre(p)))
  {
    ThreadKeysSnoc(seen, r);
    var threadData' := threadData[r.producers := threadData[r.producers] + [r]];
    forall p | p in threadData'
      ensures threadData'[p] == Select(Select(seen + [r], PayloadIs(100)), ProducersAre(p))
    {
      ThreadRowsSnoc(seen, r, p);
      if p == r.producers {
        assert threadData'[p] == threadData[p] + [r];
      } else {
        assert threadData'[p] == threadData[p];
      }
    }
  }

  /** The first payload-100 row with a given P starts that P's list. */
  lemma ThreadNew(seen: seq<Record>, r: Record, pkeys: seq<int>, threadData: map<int, seq<Record>>)
    requires ThreadGrouped(seen, pkeys, threadData) && r.payloadUs == 100 && r.producers !in threadData
    ensures var threadData' := threadData[r.producers := [r]];
      && pkeys + [r.producers] == Distinct(ProducersOf(Select(seen + [r], PayloadIs(100))))
      && (forall p :: p in threadData' <==> p in pkeys + [r.producers])
      && (forall p :: p in threadData' ==>
            threadData'[p] == Select(Select(seen + [r], PayloadIs(100)), ProducersAre(p)))
  {
    ThreadKeysSnoc(seen, r);
    assert r.producers !in pkeys;
    ThreadRowsAbsent(seen, r.producers);
    ThreadRowsSnoc(seen, r, r.producers);
    var threadData' := threadData[r.producers := [r]];
    forall p | p in threadData'
      ensures threadData'[p] == Select(Select(seen + [r], PayloadIs(100)), ProducersAre(p))
    {
      if p != r.producers {
        ThreadRowsSnoc(seen, r, p);
      }
    }
  }

  /** The body of the thread_data loop for one row: a payload-100 row is
      appended to the list of its P, which defaultdict(list) creates on the
      first such row. */
  method ThreadRow(seen: seq<Record>, r: Record, pkeys: seq<int>, threadData: map<int, seq<Record>>)
    returns (pkeys': seq<int>, threadData': map<int, seq<Record>>)
    requires ThreadGrouped(seen, pkeys, threadData)
    ensures pkeys' == Distinct(ProducersOf(Select(seen + [r], PayloadIs(100))))
    ensures forall p :: p in threadData' <==> p in pkeys'
    ensures forall p :: p in threadData' ==>
      threadData'[p] == Select(Select(seen + [r], PayloadIs(100)), ProducersAre(p))
  {
    if r.payloadUs != 100 {
      ThreadSkip(seen, r, pkeys, threadData);
      pkeys', threadData' := pkeys, threadData;
    } else if r.producers in threadData {
      ThreadExisting(seen, r, pkeys, threadData);
      pkeys', threadData' := pkeys, threadData[r.producers := threadData[r.producers] + [r]];
    } else {
      ThreadNew(seen, r, pkeys, threadData);
      pkeys', threadData' := pkeys + [r.producers], threadData[r.producers := [r]];
    }
  }

  /** The body of the `for impl in sorted(by_impl.keys())` loop for one
      implementation: the throughput and depth lists, and thread_data
      grouped by P for the payload-100 rows. */
  method SummarizeImpl(impl: string, results: seq<Record>) returns (entry: SummaryEntry)
    ensures entry == Summarize(impl, results)
  {
    var pkeys, threadData := GroupByThreads(results);
    ThreadsScaling(results, pkeys, threadData);
    var scaling: Option<Scaling> := None;
    if |threadData| > 1 {
      var threads := SortByKey(pkeys, IntKey);
      var low, high := threads[0], threads[|threads| - 1];
      scaling := Some(Scaling(low, Throughputs(threadData[low]), high, Throughputs(threadData[high])));
    }
    entry := SummaryEntry(impl, Throughputs(results), Depths(results), scaling);
  }

  /** `for r in results: if r['payload_us'] == 100: thread_data[r['P']].append(r)`. */
  method GroupByThreads(results: seq<Record>) returns (pkeys: seq<int>, threadData: map<int, seq<Record>>)
    ensures pkeys == Distinct(ProducersOf(Select(results, PayloadIs(100))))
    ensures forall p :: p in threadData <==> p in pkeys
    ensures forall p :: p in threadData ==>
      threadData[p] == Select(Select(results, PayloadIs(100)), ProducersAre(p))
  {
    pkeys, threadData := [], map[];
    for i := 0 to |results|
      invariant ThreadGrouped(results[..i], pkeys, threadData)
    {
      assert results[..i + 1] == results[..i] + [results[i]];
      pkeys, threadData := ThreadRow(results[..i], results[i], pkeys, threadData);
    }
    assert results[..|results|] == results;
  }

  /** What thread_data holds decides the scaling line: len(thread_data)
      keys, and the lists under the smallest and largest of them. */
  lemma ThreadsScaling(results: seq<Record>, pkeys: seq<int>, threadData: map<int, seq<Record>>)
    requires ThreadGrouped(results, pkeys, threadData)
    ensures |threadData| == |ThreadKeys(results)|
    ensures |threadData| > 1 ==>
      var threads := SortByKey(pkeys, IntKey);
      && threads == ThreadKeys(results)
      && threads[0] in threadData && threads[|threads| - 1] in threadData
      && ScalingOf(results) == Some(Scaling(threads[0], Throughputs(threadData[threads[0]]),
                                            threads[|threads| - 1], Throughputs(threadData[threads[|threads| - 1]])))
    ensures |threadData| <= 1 ==> ScalingOf(results) == None
  {
    DistinctMembers(ProducersOf(Select(results, PayloadIs(100))));
    KeyCount(pkeys, threadData);
    var threads := SortByKey(pkeys, IntKey);
    assert threads == ThreadKeys(results);
    if |threads| > 1 {
      ScalingOfKeys(results, pkeys, threadData, threads);
    }
  }

  /** With two keys or more, the smallest and the largest key are keys of
      thread_data, and their lists are those ScalingOf averages. */
  lemma ScalingOfKeys(results: seq<Record>, pkeys: seq<int>, threadData: map<int, seq<Record>>, threads: seq<int>)
    requires ThreadGrouped(results, pkeys, threadData)
    requires threads == SortByKey(pkeys, IntKey) && |threads| > 1
    ensures threads[0] in threadData && threads[|threads| - 1] in threadData
    ensures ScalingOf(results) == Some(Scaling(threads[0], Throughputs(threadData[threads[0]]),
                                               threads[|threads| - 1], Throughputs(threadData[threads[|threads| - 1]])))
  {
    assert threads == ThreadKeys(results);
    var low, high := threads[0], threads[|threads| - 1];
    assert low in multiset(pkeys) && high in multiset(pkeys);
    var at100 := Select(results, PayloadIs(100));
    assert threadData[low] == Select(at100, ProducersAre(low));
    assert threadData[high] == Select(at100, ProducersAre(high));
  }

  /** A dict whose keys are listed, each once, in ks has |ks| entries. */
  lemma KeyCount(ks: seq<int>, m: map<int, seq<Record>>)
    requires NoDups(ks) && forall k :: k in m <==> k in ks
    ensures |m| == |ks|
  {
    var keys := set k | k in ks;
    assert forall k :: k in m.Keys <==> k in keys;
    assert m.Keys == keys;
    NoDupsSetSize(ks);
  }

  /** The facts the by_impl loop keeps about the rows it has seen: keys is
      by_impl's key order. */
  ghost predicate ImplGrouped(seen: seq<Record>, keys: seq<string>, byImpl: map<string, seq<Record>>)
  {
    && keys == ImplNames(seen)
    && (forall k :: k in byImpl <==> k in keys)
    && (forall k :: k in byImpl ==> byImpl[k] == Select(seen, ImplIs(k)))
  }

  /** A name no record has selects nothing. */
  lemma ImplAbsent(seen: seq<Record>, k: string)
    requires k !in ImplNames(seen)
    ensures Select(seen, ImplIs(k)) == []
  {
    ImplNamesMembers(seen);
    SelectNone(seen, ImplIs(k));
  }

  /** A record of an implementation seen before extends its list. */
  lemma ImplExisting(seen: seq<Record>, r: Record, keys: seq<string>, byImpl: map<string, seq<Record>>)
    requires ImplGrouped(seen, keys, byImpl) && r.impl in byImpl
    ensures var byImpl' := byImpl[r.impl := byImpl[r.impl] + [r]];
      && keys == ImplNames(seen + [r])
      && (forall k :: k in byImpl' <==> k in keys)
      && (forall k :: k in byImpl' ==> byImpl'[k] == Select(seen + [r], ImplIs(k)))
  {
    ImplNamesSnoc(seen, r);
    var byImpl' := byImpl[r.impl := byImpl[r.impl] + [r]];
    forall k | k in byImpl'
      ensures byImpl'[k] == Select(seen + [r], ImplIs(k))
    {
      SelectSnoc(seen, r, ImplIs(k));
    }
  }

  /** The first record of an implementation starts its list. */
  lemma ImplNew(seen: seq<Record>, r: Record, keys: seq<string>, byImpl: map<string, seq<Record>>)
    requires ImplGrouped(seen, keys, byImpl) && r.impl !in byImpl
    ensures var byImpl' := byImpl[r.impl := [r]];
      && keys + [r.impl] == ImplNames(seen + [r])
      && (forall k :: k in byImpl' <==> k in keys + [r.impl])
      && (forall k :: k in byImpl' ==> byImpl'[k] == Select(seen + [r], ImplIs(k)))
  {
    ImplNamesSnoc(seen, r);
    assert r.impl !in keys;
    ImplAbsent(seen, r.impl);
    SelectSnoc(seen, r, ImplIs(r.impl));
    var byImpl' := byImpl[r.impl := [r]];
    forall k | k in byImpl'
      ensures byImpl'[k] == Select(seen + [r], ImplIs(k))
    {
      if k != r.impl {
        SelectSnoc(seen, r, ImplIs(k));
      }
    }
  }

  /** The body of the by_impl loop for one record: append it to the list of
      its implementation, which defaultdict(list) creates on the first one. */
  method ImplRow(seen: seq<Record>, r: Record, keys: seq<string>, byImpl: map<string, seq<Record>>)
    returns (keys': seq<string>, byImpl': map<string, seq<Record>>)
    requires ImplGrouped(seen, keys, byImpl)
    ensures keys' == ImplNames(seen + [r])
    ensures forall k :: k in byImpl' <==> k in keys'
    ensures forall k :: k in byImpl' ==> byImpl'[k] == Select(seen + [r], ImplIs(k))
  {
    if r.impl in byImpl {
      ImplExisting(seen, r, keys, byImpl);
      keys', byImpl' := keys, byImpl[r.impl := byImpl[r.impl] + [r]];
    } else {
      ImplNew(seen, r, keys, byImpl);
      keys', byImpl' := keys + [r.impl], byImpl[r.impl := [r]];
    }
  }

  /** `for r in parsed_rows: by_impl[r['impl']].append(r)`. */
  method GroupByImpl(parsed: seq<Record>) returns (keys: seq<string>, byImpl: map<string, seq<Record>>)
    ensures keys == ImplNames(parsed)
    ensures forall k :: k in byImpl <==> k in keys
    ensures forall k :: k in byImpl ==> byImpl[k] == Select(parsed, ImplIs(k))
  {
    keys, byImpl := [], map[];
    for i := 0 to |parsed|
      invariant ImplGrouped(parsed[..i], keys, byImpl)
    {
      assert parsed[..i + 1] == parsed[..i] + [parsed[i]];
      keys, byImpl := ImplRow(parsed[..i], parsed[i], keys, byImpl);
    }
    assert parsed[..|parsed|] == parsed;
  }

  /** `for impl in sorted(by_impl.keys())`: one entry per implementation. */
  method SummarizeGroups(parsed: seq<Record>, keys: seq<string>, byImpl: map<string, seq<Record>>)
    returns (summary: seq<SummaryEntry>)
    requires keys == ImplNames(parsed)
    requires forall k :: k in byImpl <==> k in keys
    requires forall k :: k in byImpl ==> byImpl[k] == Select(parsed, ImplIs(k))
    ensures summary == SummaryOf(parsed)
  {
    var names := SortStrings(keys);
    ghost var expected := SummaryOf(parsed);
    summary := [];
    for t := 0 to |names|
      invariant summary == expected[..t]
    {
      assert names[t] in multiset(keys);
      var entry := SummarizeImpl(names[t], byImpl[names[t]]);
      assert entry == expected[t];
      PrefixSnoc(expected, t);
      summary := summary + [entry];
    }
    assert expected[..|names|] == expected;
  }

  lemma PrefixSnoc<T>(s: seq<T>, t: int)
    requires 0 <= t < |s|
    ensures s[..t + 1] == s[..t] + [s[t]]
  {
  }

  /** generate_summary_table: parse the raw rows again, group them by impl,
      and summarise each implementation in sorted order; no entry at all
      when no row parses. */
  method GenerateSummaryTable(raw: seq<RawRow>) returns (summary: seq<SummaryEntry>)
    ensures summary == SummaryOf(ParseAll(raw))
    ensures summary == [] <==> ParseAll(raw) == []
  {
    var parsed := ParseAll(raw);
    if parsed == [] {
      return [];
    }
    var keys, byImpl := GroupByImpl(parsed);
    summary := SummarizeGroups(parsed, keys, byImpl);
    ImplNamesMembers(parsed);
    assert HasImpl(parsed, parsed[0].impl);
  }

  // =======================================================================
  // main
  // =======================================================================

  /** How main ends: one of its two early exits, or the report with what
      each chart and the summary were given. */
  datatype Outcome =
    | NoResults
    | NoValidRows
    | Report(loaded: nat, threads: seq<Series>, payload: seq<Series>,
             comparison: Option<seq<Bar>>, summary: seq<SummaryEntry>)

  /** main, given the rows load_results read from the CSV files under results/. */
  method PlotAll(raw: seq<RawRow>) returns (outcome: Outcome)
    ensures raw == [] <==> outcome == NoResults
    ensures outcome == NoValidRows <==> raw != [] && forall i :: 0 <= i < |raw| ==> ParseRow(raw[i]).None?
    ensures outcome.Report? ==>
      var rows := ParseAll(raw);
      && outcome.loaded == |rows| && |rows| > 0
      && outcome.threads == ChartOf(rows, ThreadsAxis)
      && outcome.payload == ChartOf(rows, PayloadAxis)
      && outcome.comparison == PlotImplementationComparison(rows)
      && outcome.summary == SummaryOf(rows)
  {
    if raw == [] {
      return NoResults;
    }
    ParseAllEmpty(raw);
    var rows := ParseAll(raw);
    if rows == [] {
      return NoValidRows;
    }
    var threads := PlotThreadsVsMetrics(rows);
    var payload := PlotPayloadVsMetrics(rows);
    var comparison := PlotImplementationComparison(rows);
    var summary := GenerateSummaryTable(raw);
    outcome := Report(|rows|, threads, payload, comparison, summary);
  }
}
