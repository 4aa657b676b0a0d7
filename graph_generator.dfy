/** `plot_kpi_time_series` and `generate_all_kpi_graphs`: one time-series
    plot per (site, KPI) pair, saved under `<output_dir>/<site>/<kpi>.png`.
    Drawing and the file system are outside the model; what is modelled is
    which rows are plotted and in what order, which calls stop early (with a
    message or an exception), and the path each plot is saved to. */
module GraphGenerator {
  import opened Frames
  import opened Sequences
  import opened Strings

  const SiteColumn: string := "eNodeB Name"
  const DateColumn: string := "Date"

  // ---------------------------------------------------------------------------
  // File names

  /** `site_name.replace(" ", "_").replace("/", "_")`. */
  function SiteSafe(site: string): (r: string)
    ensures |r| == |site|
    ensures ' ' !in r && '/' !in r
  {
    ReplaceChar(ReplaceChar(site, ' ', "_"), '/', "_")
  }

  /** Each character of the site name is kept, except spaces and slashes,
      which become underscores. */
  lemma SiteSafePointwise(site: string, i: nat)
    requires i < |site|
    ensures SiteSafe(site)[i] == if site[i] == ' ' || site[i] == '/' then '_' else site[i]
  {
    var once := ReplaceChar(site, ' ', "_");
    ReplaceCharPointwise(site, ' ', '_', i);
    ReplaceCharPointwise(once, '/', '_', i);
  }

  /** `kpi.replace(" ", "_").replace("/", "_").replace("%", "pct")`. */
  function KpiSafe(kpi: string): (r: string)
    ensures ' ' !in r && '/' !in r && '%' !in r
  {
    ReplaceChar(ReplaceChar(ReplaceChar(kpi, ' ', "_"), '/', "_"), '%', "pct")
  }

  /** Each `%` grows the KPI's file name by two characters ("pct"); nothing
      else changes its length. */
  lemma KpiSafeLength(kpi: string)
    ensures |KpiSafe(kpi)| == |kpi| + 2 * CountChar(kpi, '%')
  {
    var once := ReplaceChar(kpi, ' ', "_");
    var twice := ReplaceChar(once, '/', "_");
    CountAfterReplace(kpi, ' ', "_", '%');
    CountAfterReplace(once, '/', "_", '%');
    assert |once| == |kpi| && |twice| == |once|;
    assert CountChar(twice, '%') == CountChar(kpi, '%');
  }

  /** The characters a site's folder name writes as `_`. */
  predicate BecomesUnderscore(ch: char)
  {
    ch == ' ' || ch == '/' || ch == '_'
  }

  /** Two sites share a folder exactly when their names have the same length
      and differ only where both hold a space, a slash or an underscore:
      "Site A", "Site/A" and "Site_A" are not told apart. */
  lemma SiteNamesCollide(x: string, y: string)
    ensures SiteSafe(x) == SiteSafe(y) <==>
      |x| == |y| && forall i :: 0 <= i < |x| ==> x[i] == y[i] || (BecomesUnderscore(x[i]) && BecomesUnderscore(y[i]))
  {
    if |x| == |y| {
      forall i | 0 <= i < |x|
        ensures SiteSafe(x)[i] == SiteSafe(y)[i] <==> x[i] == y[i] || (BecomesUnderscore(x[i]) && BecomesUnderscore(y[i]))
      {
        SiteSafePointwise(x, i);
        SiteSafePointwise(y, i);
      }
    }
  }

  /** Two KPIs share a file name when one has `%` where the other has "pct". */
  lemma KpiNamesCollide(a: string, b: string)
    ensures KpiSafe(a + "%" + b) == KpiSafe(a + "pct" + b)
  {
    ReplaceAbsent("%", ' ', "_");
    ReplaceAbsent("%", '/', "_");
    ReplaceAbsent("pct", ' ', "_");
    ReplaceAbsent("pct", '/', "_");
    ReplaceAbsent("pct", '%', "pct");
    assert ReplaceChar("%", '%', "pct") == "pct" by {
      assert "%"[1..] == [];
    }
    var a1, b1 := ReplaceChar(a, ' ', "_"), ReplaceChar(b, ' ', "_");
    var a2, b2 := ReplaceChar(a1, '/', "_"), ReplaceChar(b1, '/', "_");
    forall mid: string | mid == "%" || mid == "pct"
      ensures KpiSafe(a + mid + b) == ReplaceChar(a2, '%', "pct") + "pct" + ReplaceChar(b2, '%', "pct")
    {
      ReplaceCharAppend(a + mid, b, ' ', "_");
      ReplaceCharAppend(a, mid, ' ', "_");
      ReplaceCharAppend(a1 + mid, b1, '/', "_");
      ReplaceCharAppend(a1, mid, '/', "_");
      ReplaceCharAppend(a2 + mid, b2, '%', "pct");
      ReplaceCharAppend(a2, mid, '%', "pct");
    }
  }

  /** POSIX `os.path.join(a, b)`: an absolute `b` replaces `a`; otherwise a
      separator is inserted unless `a` is empty or already ends with one. */
  function JoinPath(a: string, b: string): (r: string)
    ensures r == b || (a <= r && r[|a|..] == b) || (a + "/" <= r && r[|a| + 1..] == b)
  {
    if |b| > 0 && b[0] == '/' then b
    else if a == [] || a[|a| - 1] == '/' then a + b
    else a + "/" + b
  }

  /** Which of the three joins happens: the path always ends with `b`; an
      absolute `b` is the whole path; a relative `b` follows `a` directly when
      `a` is empty or ends with a separator, and after an added `/` when not. */
  lemma JoinPathCases(a: string, b: string)
    ensures var r := JoinPath(a, b);
      && |b| <= |r| && r[|r| - |b|..] == b
      && (|b| > 0 && b[0] == '/' ==> r == b)
      && (!(|b| > 0 && b[0] == '/') && (a == [] || a[|a| - 1] == '/') ==> r == a + b)
      && (!(|b| > 0 && b[0] == '/') && a != [] && a[|a| - 1] != '/' ==> r == a + "/" + b)
  {
  }

  /** `os.path.join(os.path.join(output_dir, site_safe), f"{kpi_safe}.png")`. */
  function SavePath(outputDir: string, site: string, kpi: string): string
  {
    JoinPath(JoinPath(outputDir, SiteSafe(site)), KpiSafe(kpi) + ".png")
  }

  /** For a non-empty site and an output folder that does not end in a
      separator, the plot is saved at `<output_dir>/<site_safe>/<kpi_safe>.png`,
      whose last two components are free of separators. */
  lemma SavePathShape(outputDir: string, site: string, kpi: string)
    requires outputDir != [] && outputDir[|outputDir| - 1] != '/'
    requires site != []
    ensures SavePath(outputDir, site, kpi) == (outputDir + "/" + SiteSafe(site)) + "/" + (KpiSafe(kpi) + ".png")
    ensures '/' !in SiteSafe(site) && '/' !in KpiSafe(kpi) + ".png"
  {
    var s := SiteSafe(site);
    var file := KpiSafe(kpi) + ".png";
    assert s[0] in s && s[|s| - 1] in s;
    JoinRelative(outputDir, s);
    var folder := outputDir + "/" + s;
    assert folder[|folder| - 1] == s[|s| - 1];
    NoSeparatorInFile(KpiSafe(kpi));
    JoinRelative(folder, file);
  }

  /** Joining a relative part onto a folder without a trailing separator
      inserts one. */
  lemma JoinRelative(a: string, b: string)
    requires a != [] && a[|a| - 1] != '/'
    requires b != [] && b[0] != '/'
    ensures JoinPath(a, b) == a + "/" + b
  {
  }

  lemma NoSeparatorInFile(name: string)
    requires '/' !in name
    ensures var file := name + ".png"; file != [] && file[0] != '/' && '/' !in file
  {
    var file := name + ".png";
    if name == [] {
      assert file == ".png";
    } else {
      assert file[0] == name[0] && name[0] in name;
    }
    forall k | 0 <= k < |file| ensures file[k] != '/' {
      if k < |name| {
        assert file[k] == name[k] && name[k] in name;
      } else {
        assert file[k] == ".png"[k - |name|];
      }
    }
  }

  // ---------------------------------------------------------------------------
  // One plot

  /** The site filter `df['eNodeB Name'] == site_name` on a row whose site is
      in column `n`; a missing site (NaN) equals nothing. */
  function OfSite(n: nat, site: Cell): seq<Cell> -> bool
  {
    r => site != Missing && n < |r| && r[n] == site
  }

  /** `df[df['eNodeB Name'] == site_name]`: the site's rows in table order
      (`PlottedRowsAreSiteRows` states which rows these are). */
  function SiteRows(f: Frame, n: nat, site: Cell): (rows: seq<seq<Cell>>)
    ensures |rows| <= |f.rows|
  {
    Filter(f.rows, OfSite(n, site))
  }

  /** The date of a row under `pd.to_datetime`, with instants as integers:
      `toTime` converts a date cell and returns `None` for `NaT`; a missing
      cell is `NaT`. */
  function DateOf(r: seq<Cell>, d: nat, toTime: Cell -> Option<int>): Option<int>
  {
    if d < |r| && r[d] != Missing then toTime(r[d]) else None
  }

  /** The order of `sort_values('Date')`: dates ascending, `NaT` after every
      date. */
  predicate DateNotAfter(a: Option<int>, b: Option<int>)
  {
    b.None? || (a.Some? && a.value <= b.value)
  }

  predicate DateOrdered(rows: seq<seq<Cell>>, d: nat, toTime: Cell -> Option<int>)
  {
    forall i, j :: 0 <= i < j < |rows| ==> DateNotAfter(DateOf(rows[i], d, toTime), DateOf(rows[j], d, toTime))
  }

  /** An instant no earlier than any date in `rows`. */
  function LatestDate(rows: seq<seq<Cell>>, d: nat, toTime: Cell -> Option<int>): (m: int)
    ensures forall r :: r in rows && DateOf(r, d, toTime).Some? ==> DateOf(r, d, toTime).value <= m
  {
    if rows == [] then 0
    else
      var m := LatestDate(rows[..|rows| - 1], d, toTime);
      var last := DateOf(rows[|rows| - 1], d, toTime);
      assert forall r :: r in rows ==> r in rows[..|rows| - 1] || r == rows[|rows| - 1];
      if last.Some? && last.value > m then last.value else m
  }

  /** An integer sort key for the date order: a date is its instant, `NaT`
      is `bound`, later than every date of the rows being sorted. */
  function RankKey(d: nat, toTime: Cell -> Option<int>, bound: int): seq<Cell> -> int
  {
    r => var t := DateOf(r, d, toTime); if t.Some? then t.value else bound
  }

  /** Rows sorted by the rank key, with `bound` past every date among them,
      are in date order with `NaT` last. */
  lemma RankOrderIsDateOrder(sorted: seq<seq<Cell>>, rows: seq<seq<Cell>>, d: nat, toTime: Cell -> Option<int>, bound: int)
    requires multiset(sorted) == multiset(rows)
    requires forall r :: r in rows && DateOf(r, d, toTime).Some? ==> DateOf(r, d, toTime).value < bound
    requires SortedBy(sorted, RankKey(d, toTime, bound))
    ensures DateOrdered(sorted, d, toTime)
  {
    forall i, j | 0 <= i < j < |sorted|
      ensures DateNotAfter(DateOf(sorted[i], d, toTime), DateOf(sorted[j], d, toTime))
    {
      assert sorted[i] in multiset(rows) && sorted[j] in multiset(rows);
      assert RankKey(d, toTime, bound)(sorted[i]) <= RankKey(d, toTime, bound)(sorted[j]);
    }
  }

  /** What a call to `plot_kpi_time_series` ends with. `MissingColumn` and
      `SiteNotText` are exceptions (`KeyError`, and `AttributeError` from
      `replace` on a site name that is not a string); `NoSiteData` and
      `KpiNotFound` print a message and return `None`; `Plotted` saves the
      figure at `path`, plotting column `kpiColumn` of `rows` against their
      dates, with a threshold line when `threshold` is present. */
  datatype PlotOutcome =
    | MissingColumn(name: string)
    | NoSiteData
    | KpiNotFound
    | SiteNotText
    | Plotted(path: string, rows: seq<seq<Cell>>, kpiColumn: nat, threshold: Option<real>)

  predicate Raises(o: PlotOutcome)
  {
    o.MissingColumn? || o.SiteNotText?
  }

  /** The arguments of one call. */
  datatype Request = Request(site: Cell, kpi: string, threshold: Option<real>)

  /** The outcomes `plot_kpi_time_series(df, site, kpi, threshold, output_dir)`
      may have, in the order the function checks: the site column, the site's
      rows, the date column, the KPI column, then the site name's type. The
      plotted rows are the site's rows sorted by date, rows without a date
      last; pandas promises no order among equal dates, so any such order is
      allowed. */
  predicate PlotSpec(f: Frame, req: Request, outputDir: string, toTime: Cell -> Option<int>, o: PlotOutcome)
  {
    match IndexOf(Names(f), SiteColumn)
    case None => o == MissingColumn(SiteColumn)
    case Some(n) =>
      var rows := SiteRows(f, n, req.site);
      if rows == [] then o == NoSiteData
      else
        match IndexOf(Names(f), DateColumn)
        case None => o == MissingColumn(DateColumn)
        case Some(d) =>
          match IndexOf(Names(f), req.kpi)
          case None => o == KpiNotFound
          case Some(k) =>
            if !req.site.Text? then o == SiteNotText
            else
              && o.Plotted?
              && o.path == SavePath(outputDir, req.site.s, req.kpi)
              && o.kpiColumn == k
              && o.threshold == req.threshold
              && multiset(o.rows) == multiset(rows)
              && DateOrdered(o.rows, d, toTime)
  }

  /** `plot_kpi_time_series(df, site_name, kpi, threshold, output_dir)`: the
      site's rows are copied out, sorted in place by date, and plotted. */
  method PlotKpiTimeSeries(f: Frame, site: Cell, kpi: string, threshold: Option<real>,
                           outputDir: string, toTime: Cell -> Option<int>)
    returns (outcome: PlotOutcome)
    ensures PlotSpec(f, Request(site, kpi, threshold), outputDir, toTime, outcome)
  {
    var siteIx := IndexOf(Names(f), SiteColumn);
    if siteIx.None? {
      return MissingColumn(SiteColumn);
    }
    var rows := SiteRows(f, siteIx.value, site);
    if rows == [] {
      return NoSiteData;
    }
    var dateIx := IndexOf(Names(f), DateColumn);
    if dateIx.None? {
      return MissingColumn(DateColumn);
    }
    var table := new seq<Cell>[|rows|](i requires 0 <= i < |rows| => rows[i]);
    assert table[..] == rows;
    var bound := LatestDate(rows, dateIx.value, toTime) + 1;
    SortInPlace(table, RankKey(dateIx.value, toTime, bound));
    RankOrderIsDateOrder(table[..], rows, dateIx.value, toTime, bound);
    var kpiIx := IndexOf(Names(f), kpi);
    if kpiIx.None? {
      return KpiNotFound;
    }
    if !site.Text? {
      return SiteNotText;
    }
    outcome := Plotted(SavePath(outputDir, site.s, kpi), table[..], kpiIx.value, threshold);
  }

  /** The site has at least one row: it is not missing and some row holds it
      in the site column. */
  predicate HasSiteRows(f: Frame, n: nat, site: Cell)
    requires WellFormed(f) && n < |f.columns|
  {
    site != Missing && exists i :: 0 <= i < |f.rows| && f.rows[i][n] == site
  }

  lemma SiteRowsNonEmpty(f: Frame, n: nat, site: Cell)
    requires WellFormed(f) && n < |f.columns|
    ensures SiteRows(f, n, site) != [] <==> HasSiteRows(f, n, site)
  {
    FilterMembership(f.rows, OfSite(n, site));
    if SiteRows(f, n, site) != [] {
      var r := SiteRows(f, n, site)[0];
      var i :| 0 <= i < |f.rows| && f.rows[i] == r;
    }
    if HasSiteRows(f, n, site) {
      var i :| 0 <= i < |f.rows| && f.rows[i][n] == site;
      assert OfSite(n, site)(f.rows[i]);
    }
  }

  /** When a call raises, stated on the table alone: without a site column;
      or, once the site has rows, without a date column, or when the KPI
      column exists but the site name is not a string. */
  predicate PlotRaisesOn(f: Frame, req: Request)
    requires WellFormed(f)
  {
    match IndexOf(Names(f), SiteColumn)
    case None => true
    case Some(n) =>
      HasSiteRows(f, n, req.site) &&
      (DateColumn !in Names(f) || (req.kpi in Names(f) && !req.site.Text?))
  }

  lemma PlotRaisesIff(f: Frame, req: Request, outputDir: string, toTime: Cell -> Option<int>, o: PlotOutcome)
    requires WellFormed(f)
    requires PlotSpec(f, req, outputDir, toTime, o)
    ensures Raises(o) <==> PlotRaisesOn(f, req)
  {
    var n := IndexOf(Names(f), SiteColumn);
    if n.Some? {
      SiteRowsNonEmpty(f, n.value, req.site);
    }
  }

  /** A plot shows exactly the site's rows: every plotted row is a row of the
      table whose site cell is the requested site, every such row is plotted,
      and the plotted column is the requested KPI. */
  lemma PlottedRowsAreSiteRows(f: Frame, req: Request, outputDir: string, toTime: Cell -> Option<int>, o: PlotOutcome)
    requires WellFormed(f)
    requires PlotSpec(f, req, outputDir, toTime, o) && o.Plotted?
    ensures SiteColumn in Names(f) && req.kpi in Names(f) && req.site.Text?
    ensures var n := IndexOf(Names(f), SiteColumn).value;
      && (forall r :: r in o.rows ==> r in f.rows && |r| == |f.columns| && r[n] == req.site)
      && (forall i :: 0 <= i < |f.rows| && f.rows[i][n] == req.site ==> f.rows[i] in o.rows)
    ensures o.kpiColumn < |f.columns| && f.columns[o.kpiColumn].name == req.kpi
  {
    var n := IndexOf(Names(f), SiteColumn).value;
    PermutedSiteRows(f, n, req.site, o.rows);
  }

  /** Any reordering of the site's rows holds exactly the table's rows for
      the site. */
  lemma PermutedSiteRows(f: Frame, n: nat, site: Cell, plotted: seq<seq<Cell>>)
    requires WellFormed(f) && n < |f.columns| && site != Missing
    requires multiset(plotted) == multiset(SiteRows(f, n, site))
    ensures forall r :: r in plotted ==> r in f.rows && |r| == |f.columns| && r[n] == site
    ensures forall i :: 0 <= i < |f.rows| && f.rows[i][n] == site ==> f.rows[i] in plotted
  {
    var rows := SiteRows(f, n, site);
    FilterMembership(f.rows, OfSite(n, site));
    forall r | r in plotted ensures r in f.rows && |r| == |f.columns| && r[n] == site {
      assert r in multiset(plotted);
      var k :| 0 <= k < |rows| && rows[k] == r;
    }
    forall i | 0 <= i < |f.rows| && f.rows[i][n] == site ensures f.rows[i] in plotted {
      assert OfSite(n, site)(f.rows[i]);
      assert f.rows[i] in multiset(rows);
    }
  }

  // ---------------------------------------------------------------------------
  // All plots

  /** `threshold_dict[kpi]` when a non-empty dictionary holds the KPI, else
      `None`; a `None` dictionary is `None` here. */
  function ThresholdFor(thresholds: Option<map<string, Option<real>>>, kpi: string): Option<real>
  {
    if thresholds.Some? && kpi in thresholds.value then thresholds.value[kpi] else None
  }

  /** The requests for one site, one per KPI in list order. */
  function SiteRequests(site: Cell, kpis: seq<string>, thresholds: Option<map<string, Option<real>>>): (rs: seq<Request>)
    ensures |rs| == |kpis|
    ensures forall j :: 0 <= j < |kpis| ==> rs[j] == Request(site, kpis[j], ThresholdFor(thresholds, kpis[j]))
  {
    if kpis == [] then []
    else SiteRequests(site, kpis[..|kpis| - 1], thresholds) + [Request(site, kpis[|kpis| - 1], ThresholdFor(thresholds, kpis[|kpis| - 1]))]
  }

  /** The requests of the nested loops: site by site, and within a site KPI
      by KPI. */
  function Schedule(sites: seq<Cell>, kpis: seq<string>, thresholds: Option<map<string, Option<real>>>): seq<Request>
  {
    if sites == [] then []
    else Schedule(sites[..|sites| - 1], kpis, thresholds) + SiteRequests(sites[|sites| - 1], kpis, thresholds)
  }

  lemma {:induction false} ScheduleLength(sites: seq<Cell>, kpis: seq<string>, thresholds: Option<map<string, Option<real>>>)
    ensures |Schedule(sites, kpis, thresholds)| == |sites| * |kpis|
  {
    if sites != [] {
      var init := sites[..|sites| - 1];
      ScheduleLength(init, kpis, thresholds);
      assert |sites| * |kpis| == |init| * |kpis| + |kpis| by {
        assert |sites| == |init| + 1;
      }
    }
  }

  lemma {:induction false} SchedulePrefix(sites: seq<Cell>, kpis: seq<string>, thresholds: Option<map<string, Option<real>>>, i: nat)
    requires i <= |sites|
    ensures Schedule(sites[..i], kpis, thresholds) <= Schedule(sites, kpis, thresholds)
  {
    if i < |sites| {
      var init := sites[..|sites| - 1];
      assert init[..i] == sites[..i];
      SchedulePrefix(init, kpis, thresholds, i);
    } else {
      assert sites[..i] == sites;
    }
  }

  lemma ScheduleStep(sites: seq<Cell>, kpis: seq<string>, thresholds: Option<map<string, Option<real>>>, i: nat)
    requires i < |sites|
    ensures Schedule(sites[..i + 1], kpis, thresholds) == Schedule(sites[..i], kpis, thresholds) + SiteRequests(sites[i], kpis, thresholds)
  {
    assert sites[..i + 1][..i] == sites[..i];
  }

  /** Request `j` of site `i` comes at position `i * |kpis| + j`: the sites
      are the outer loop and the KPIs the inner one. */
  lemma ScheduleEntry(sites: seq<Cell>, kpis: seq<string>, thresholds: Option<map<string, Option<real>>>, i: nat, j: nat)
    requires i < |sites| && j < |kpis|
    ensures |Schedule(sites, kpis, thresholds)| == |sites| * |kpis|
    ensures i * |kpis| + j < |sites| * |kpis|
    ensures Schedule(sites, kpis, thresholds)[i * |kpis| + j] == Request(sites[i], kpis[j], ThresholdFor(thresholds, kpis[j]))
  {
    var all := Schedule(sites, kpis, thresholds);
    var before := Schedule(sites[..i], kpis, thresholds);
    var upto := Schedule(sites[..i + 1], kpis, thresholds);
    ScheduleLength(sites, kpis, thresholds);
    ScheduleLength(sites[..i], kpis, thresholds);
    assert |sites[..i]| == i;
    EntryBound(i, j, |sites|, |kpis|);
    ScheduleStepEntry(sites, kpis, thresholds, i, j);
    SchedulePrefix(sites, kpis, thresholds, i + 1);
    assert i * |kpis| + j == |before| + j;
    assert all[|before| + j] == upto[|before| + j];
  }

  /** Request `j` of site `i` follows the requests of the sites before it. */
  lemma ScheduleStepEntry(sites: seq<Cell>, kpis: seq<string>, thresholds: Option<map<string, Option<real>>>, i: nat, j: nat)
    requires i < |sites| && j < |kpis|
    ensures var before := Schedule(sites[..i], kpis, thresholds);
      && |before| + j < |Schedule(sites[..i + 1], kpis, thresholds)|
      && Schedule(sites[..i + 1], kpis, thresholds)[|before| + j] == Request(sites[i], kpis[j], ThresholdFor(thresholds, kpis[j]))
  {
    ScheduleStep(sites, kpis, thresholds, i);
  }

  lemma EntryBound(i: nat, j: nat, n: nat, m: nat)
    requires i < n && j < m
    ensures i * m + j < n * m
  {
    assert i * m + j < (i + 1) * m;
    assert (i + 1) * m <= n * m;
  }

  /** `df['eNodeB Name'].unique()`, missing values included; `None` for the
      `KeyError` of a table without the column. */
  function AllSites(f: Frame): (sites: Option<seq<Cell>>)
    requires WellFormed(f)
    ensures sites.None? <==> SiteColumn !in Names(f)
  {
    match IndexOf(Names(f), SiteColumn)
    case None => None
    case Some(n) => Some(Unique(ColumnCells(f, n)))
  }

  /** One call made by the loops, with what it ended with. */
  datatype Call = Call(request: Request, outcome: PlotOutcome)

  /** What `generate_all_kpi_graphs` does: `NoSiteColumn` for the `KeyError`
      raised before any plot, otherwise the calls made, the last of which
      raised when the run stopped early. */
  datatype Run = NoSiteColumn | Ran(calls: seq<Call>)

  function Requests(calls: seq<Call>): (rs: seq<Request>)
    ensures |rs| == |calls|
    ensures forall k :: 0 <= k < |calls| ==> rs[k] == calls[k].request
  {
    if calls == [] then [] else Requests(calls[..|calls| - 1]) + [calls[|calls| - 1].request]
  }

  lemma RequestsAppend(a: seq<Call>, b: seq<Call>)
    ensures Requests(a + b) == Requests(a) + Requests(b)
  {
    var ab := a + b;
    forall k | 0 <= k < |ab| ensures Requests(ab)[k] == (Requests(a) + Requests(b))[k] {
      if k >= |a| {
        assert ab[k] == b[k - |a|];
      }
    }
  }

  /** Every call ended as `plot_kpi_time_series` may end on its request. */
  predicate AllFollowSpec(f: Frame, outputDir: string, toTime: Cell -> Option<int>, calls: seq<Call>)
  {
    forall k :: 0 <= k < |calls| ==> PlotSpec(f, calls[k].request, outputDir, toTime, calls[k].outcome)
  }

  lemma AllFollowSpecAppend(f: Frame, outputDir: string, toTime: Cell -> Option<int>, a: seq<Call>, b: seq<Call>)
    requires AllFollowSpec(f, outputDir, toTime, a) && AllFollowSpec(f, outputDir, toTime, b)
    ensures AllFollowSpec(f, outputDir, toTime, a + b)
  {
    var ab := a + b;
    forall k | 0 <= k < |ab| ensures PlotSpec(f, ab[k].request, outputDir, toTime, ab[k].outcome) {
      if k < |a| {
        assert ab[k] == a[k];
      } else {
        assert ab[k] == b[k - |a|];
      }
    }
  }

  predicate NoneRaise(calls: seq<Call>)
  {
    forall k :: 0 <= k < |calls| ==> !Raises(calls[k].outcome)
  }

  /** The calls follow `planned` from its start, none but the last raised,
      and they stop short of the plan only because the last one raised: an
      exception ends the loops. */
  predicate StopsAtFirstRaise(calls: seq<Call>, planned: seq<Request>)
  {
    && Requests(calls) <= planned
    && (forall k :: 0 <= k < |calls| - 1 ==> !Raises(calls[k].outcome))
    && (|calls| < |planned| ==> calls != [] && Raises(calls[|calls| - 1].outcome))
  }

  /** Calls that raised nothing and carried out the whole of one plan,
      followed by calls that stop at the first raise on the next plan. */
  lemma {:induction false} StopsAppend(a: seq<Call>, pa: seq<Request>, b: seq<Call>, pb: seq<Request>)
    requires Requests(a) == pa && NoneRaise(a)
    requires StopsAtFirstRaise(b, pb)
    ensures StopsAtFirstRaise(a + b, pa + pb)
  {
    RequestsAppend(a, b);
    var ab := a + b;
    forall k | 0 <= k < |ab| - 1 ensures !Raises(ab[k].outcome) {
      if k < |a| {
        assert ab[k] == a[k];
      } else {
        assert ab[k] == b[k - |a|];
      }
    }
    if |ab| < |pa + pb| {
      assert ab[|ab| - 1] == b[|b| - 1];
    }
  }

  /** A stop on a raise stays a stop against any longer plan. */
  lemma {:induction false} StopsExtend(calls: seq<Call>, p: seq<Request>, q: seq<Request>)
    requires StopsAtFirstRaise(calls, p) && p <= q
    requires calls != [] && Raises(calls[|calls| - 1].outcome)
    ensures StopsAtFirstRaise(calls, q)
  {
  }

  /** A plan carried out without a raise is carried out in full. */
  lemma {:induction false} StopsWithoutRaise(calls: seq<Call>, p: seq<Request>)
    requires StopsAtFirstRaise(calls, p)
    requires calls == [] || !Raises(calls[|calls| - 1].outcome)
    ensures Requests(calls) == p && NoneRaise(calls)
  {
    assert Requests(calls) == p[..|calls|];
  }

  predicate EndsInRaise(calls: seq<Call>)
  {
    calls != [] && Raises(calls[|calls| - 1].outcome)
  }

  /** The inner loop after `j` KPIs of `site`, none of which raised. */
  predicate SiteProgress(f: Frame, outputDir: string, toTime: Cell -> Option<int>, site: Cell, kpis: seq<string>,
                         thresholds: Option<map<string, Option<real>>>, j: nat, calls: seq<Call>)
  {
    && j <= |kpis|
    && Requests(calls) == SiteRequests(site, kpis[..j], thresholds)
    && AllFollowSpec(f, outputDir, toTime, calls)
    && NoneRaise(calls)
  }

  lemma SiteProgressStart(f: Frame, outputDir: string, toTime: Cell -> Option<int>, site: Cell, kpis: seq<string>,
                          thresholds: Option<map<string, Option<real>>>)
    ensures SiteProgress(f, outputDir, toTime, site, kpis, thresholds, 0, [])
  {
    assert kpis[..0] == [];
  }

  lemma {:induction false} SiteProgressStep(f: Frame, outputDir: string, toTime: Cell -> Option<int>, site: Cell, kpis: seq<string>,
                                            thresholds: Option<map<string, Option<real>>>, j: nat, calls: seq<Call>, call: Call)
    requires SiteProgress(f, outputDir, toTime, site, kpis, thresholds, j, calls) && j < |kpis|
    requires call.request == Request(site, kpis[j], ThresholdFor(thresholds, kpis[j]))
    requires PlotSpec(f, call.request, outputDir, toTime, call.outcome)
    ensures AllFollowSpec(f, outputDir, toTime, calls + [call])
    ensures Requests(calls + [call]) == SiteRequests(site, kpis[..j + 1], thresholds)
    ensures Requests(calls + [call]) <= SiteRequests(site, kpis, thresholds)
    ensures NoneRaise(calls) && EndsInRaise(calls + [call]) == Raises(call.outcome)
  {
    RequestsAppend(calls, [call]);
    AllFollowSpecAppend(f, outputDir, toTime, calls, [call]);
    assert kpis[..j + 1][..j] == kpis[..j];
    SiteRequestsPrefix(site, kpis, thresholds, j + 1);
  }

  lemma {:induction false} SiteStopped(site: Cell, kpis: seq<string>, thresholds: Option<map<string, Option<real>>>,
                                       calls: seq<Call>, call: Call)
    requires NoneRaise(calls) && Raises(call.outcome)
    requires Requests(calls + [call]) <= SiteRequests(site, kpis, thresholds)
    ensures StopsAtFirstRaise(calls + [call], SiteRequests(site, kpis, thresholds))
  {
    var all := calls + [call];
    forall k | 0 <= k < |all| - 1 ensures !Raises(all[k].outcome) {
      assert all[k] == calls[k];
    }
  }

  lemma {:induction false} SiteContinues(f: Frame, outputDir: string, toTime: Cell -> Option<int>, site: Cell, kpis: seq<string>,
                                         thresholds: Option<map<string, Option<real>>>, j: nat, calls: seq<Call>, call: Call)
    requires j < |kpis| && NoneRaise(calls) && !Raises(call.outcome)
    requires AllFollowSpec(f, outputDir, toTime, calls + [call])
    requires Requests(calls + [call]) == SiteRequests(site, kpis[..j + 1], thresholds)
    ensures SiteProgress(f, outputDir, toTime, site, kpis, thresholds, j + 1, calls + [call])
  {
    var all := calls + [call];
    forall k | 0 <= k < |all| ensures !Raises(all[k].outcome) {
      if k < |calls| {
        assert all[k] == calls[k];
      }
    }
  }

  lemma {:induction false} SiteProgressEnd(f: Frame, outputDir: string, toTime: Cell -> Option<int>, site: Cell, kpis: seq<string>,
                                           thresholds: Option<map<string, Option<real>>>, calls: seq<Call>)
    requires SiteProgress(f, outputDir, toTime, site, kpis, thresholds, |kpis|, calls)
    ensures StopsAtFirstRaise(calls, SiteRequests(site, kpis, thresholds))
  {
    assert kpis[..|kpis|] == kpis;
  }

  lemma SiteRequestsPrefix(site: Cell, kpis: seq<string>, thresholds: Option<map<string, Option<real>>>, j: nat)
    requires j <= |kpis|
    ensures SiteRequests(site, kpis[..j], thresholds) <= SiteRequests(site, kpis, thresholds)
  {
  }

  /** The inner loop of `generate_all_kpi_graphs`: one call per KPI for one
      site, in list order, until a call raises. */
  method PlotSite(f: Frame, site: Cell, kpis: seq<string>, outputDir: string,
                  thresholds: Option<map<string, Option<real>>>, toTime: Cell -> Option<int>)
    returns (calls: seq<Call>)
    ensures AllFollowSpec(f, outputDir, toTime, calls)
    ensures StopsAtFirstRaise(calls, SiteRequests(site, kpis, thresholds))
  {
    calls := [];
    SiteProgressStart(f, outputDir, toTime, site, kpis, thresholds);
    var j := 0;
    while j < |kpis|
      invariant SiteProgress(f, outputDir, toTime, site, kpis, thresholds, j, calls)
    {
      var threshold := ThresholdFor(thresholds, kpis[j]);
      var outcome := PlotKpiTimeSeries(f, site, kpis[j], threshold, outputDir, toTime);
      var call := Call(Request(site, kpis[j], threshold), outcome);
      SiteProgressStep(f, outputDir, toTime, site, kpis, thresholds, j, calls, call);
      if Raises(outcome) {
        SiteStopped(site, kpis, thresholds, calls, call);
        return calls + [call];
      }
      SiteContinues(f, outputDir, toTime, site, kpis, thresholds, j, calls, call);
      calls := calls + [call];
      j := j + 1;
    }
    SiteProgressEnd(f, outputDir, toTime, site, kpis, thresholds, calls);
  }

  /** The runs `generate_all_kpi_graphs` may have: every call ends as a plot
      call may, and the calls follow the schedule until the first that
      raised. */
  predicate RunSpec(f: Frame, kpis: seq<string>, outputDir: string,
                    thresholds: Option<map<string, Option<real>>>, toTime: Cell -> Option<int>, run: Run)
    requires WellFormed(f)
  {
    && (run.NoSiteColumn? <==> AllSites(f).None?)
    && (run.Ran? ==>
          && AllSites(f).Some?
          && AllFollowSpec(f, outputDir, toTime, run.calls)
          && StopsAtFirstRaise(run.calls, Schedule(AllSites(f).value, kpis, thresholds)))
  }

  /** The outer loop after `i` sites, none of whose calls raised. */
  predicate RunProgress(f: Frame, outputDir: string, toTime: Cell -> Option<int>, sites: seq<Cell>, kpis: seq<string>,
                        thresholds: Option<map<string, Option<real>>>, i: nat, calls: seq<Call>)
  {
    && i <= |sites|
    && Requests(calls) == Schedule(sites[..i], kpis, thresholds)
    && AllFollowSpec(f, outputDir, toTime, calls)
    && NoneRaise(calls)
  }

  lemma RunProgressStart(f: Frame, outputDir: string, toTime: Cell -> Option<int>, sites: seq<Cell>, kpis: seq<string>,
                         thresholds: Option<map<string, Option<real>>>)
    ensures RunProgress(f, outputDir, toTime, sites, kpis, thresholds, 0, [])
  {
    assert sites[..0] == [];
  }

  lemma {:induction false} RunProgressStep(f: Frame, outputDir: string, toTime: Cell -> Option<int>, sites: seq<Cell>, kpis: seq<string>,
                                           thresholds: Option<map<string, Option<real>>>, i: nat, calls: seq<Call>, siteCalls: seq<Call>)
    requires RunProgress(f, outputDir, toTime, sites, kpis, thresholds, i, calls) && i < |sites|
    requires AllFollowSpec(f, outputDir, toTime, siteCalls)
    requires StopsAtFirstRaise(siteCalls, SiteRequests(sites[i], kpis, thresholds))
    ensures AllFollowSpec(f, outputDir, toTime, calls + siteCalls)
    ensures StopsAtFirstRaise(calls + siteCalls, Schedule(sites[..i + 1], kpis, thresholds))
    ensures EndsInRaise(calls + siteCalls) == EndsInRaise(siteCalls)
  {
    StopsAppend(calls, Schedule(sites[..i], kpis, thresholds), siteCalls, SiteRequests(sites[i], kpis, thresholds));
    AllFollowSpecAppend(f, outputDir, toTime, calls, siteCalls);
    ScheduleStep(sites, kpis, thresholds, i);
    if siteCalls != [] {
      assert (calls + siteCalls)[|calls + siteCalls| - 1] == siteCalls[|siteCalls| - 1];
    }
  }

  lemma {:induction false} RunStopped(sites: seq<Cell>, kpis: seq<string>, thresholds: Option<map<string, Option<real>>>,
                                      i: nat, calls: seq<Call>)
    requires i < |sites|
    requires StopsAtFirstRaise(calls, Schedule(sites[..i + 1], kpis, thresholds)) && EndsInRaise(calls)
    ensures StopsAtFirstRaise(calls, Schedule(sites, kpis, thresholds))
  {
    SchedulePrefix(sites, kpis, thresholds, i + 1);
    StopsExtend(calls, Schedule(sites[..i + 1], kpis, thresholds), Schedule(sites, kpis, thresholds));
  }

  lemma {:induction false} RunContinues(f: Frame, outputDir: string, toTime: Cell -> Option<int>, sites: seq<Cell>, kpis: seq<string>,
                                        thresholds: Option<map<string, Option<real>>>, i: nat, calls: seq<Call>)
    requires i < |sites|
    requires AllFollowSpec(f, outputDir, toTime, calls)
    requires StopsAtFirstRaise(calls, Schedule(sites[..i + 1], kpis, thresholds)) && !EndsInRaise(calls)
    ensures RunProgress(f, outputDir, toTime, sites, kpis, thresholds, i + 1, calls)
  {
    StopsWithoutRaise(calls, Schedule(sites[..i + 1], kpis, thresholds));
  }

  lemma {:induction false} RunProgressEnd(f: Frame, outputDir: string, toTime: Cell -> Option<int>, sites: seq<Cell>, kpis: seq<string>,
                                          thresholds: Option<map<string, Option<real>>>, calls: seq<Call>)
    requires RunProgress(f, outputDir, toTime, sites, kpis, thresholds, |sites|, calls)
    ensures StopsAtFirstRaise(calls, Schedule(sites, kpis, thresholds))
  {
    assert sites[..|sites|] == sites;
  }

  /** `generate_all_kpi_graphs(df, kpi_list, output_dir, threshold_dict)`. */
  method GenerateAllKpiGraphs(f: Frame, kpis: seq<string>, outputDir: string,
                              thresholds: Option<map<string, Option<real>>>, toTime: Cell -> Option<int>)
    returns (run: Run)
    requires WellFormed(f)
    ensures RunSpec(f, kpis, outputDir, thresholds, toTime, run)
  {
    var sites := AllSites(f);
    if sites.None? {
      return NoSiteColumn;
    }
    var all := sites.value;
    var calls: seq<Call> := [];
    RunProgressStart(f, outputDir, toTime, all, kpis, thresholds);
    var i := 0;
    while i < |all|
      invariant RunProgress(f, outputDir, toTime, all, kpis, thresholds, i, calls)
    {
      var siteCalls := PlotSite(f, all[i], kpis, outputDir, thresholds, toTime);
      RunProgressStep(f, outputDir, toTime, all, kpis, thresholds, i, calls, siteCalls);
      if EndsInRaise(siteCalls) {
        RunStopped(all, kpis, thresholds, i, calls + siteCalls);
        return Ran(calls + siteCalls);
      }
      RunContinues(f, outputDir, toTime, all, kpis, thresholds, i, calls + siteCalls);
      calls := calls + siteCalls;
      i := i + 1;
    }
    RunProgressEnd(f, outputDir, toTime, all, kpis, thresholds, calls);
    run := Ran(calls);
  }

  /** Every non-missing site name is a string. */
  predicate SiteNamesText(f: Frame, n: nat)
    requires WellFormed(f) && n < |f.columns|
  {
    forall i :: 0 <= i < |f.rows| ==> f.rows[i][n] == Missing || f.rows[i][n].Text?
  }

  /** With a date column and site names that are strings, a plot call does
      not raise. */
  lemma PlotDoesNotRaise(f: Frame, req: Request, outputDir: string, toTime: Cell -> Option<int>, o: PlotOutcome)
    requires WellFormed(f)
    requires PlotSpec(f, req, outputDir, toTime, o)
    requires SiteColumn in Names(f) && DateColumn in Names(f)
    requires SiteNamesText(f, IndexOf(Names(f), SiteColumn).value)
    ensures !Raises(o)
  {
    var n := IndexOf(Names(f), SiteColumn).value;
    PlotRaisesIff(f, req, outputDir, toTime, o);
    if HasSiteRows(f, n, req.site) {
      var i :| 0 <= i < |f.rows| && f.rows[i][n] == req.site;
    }
  }

  /** With a date column and site names that are strings, no call raises and
      the run makes every call of the schedule: one per (site, KPI) pair. */
  lemma RunCoversSchedule(f: Frame, kpis: seq<string>, outputDir: string,
                          thresholds: Option<map<string, Option<real>>>, toTime: Cell -> Option<int>, run: Run)
    requires WellFormed(f)
    requires RunSpec(f, kpis, outputDir, thresholds, toTime, run)
    requires SiteColumn in Names(f) && DateColumn in Names(f)
    requires SiteNamesText(f, IndexOf(Names(f), SiteColumn).value)
    ensures run.Ran?
    ensures Requests(run.calls) == Schedule(AllSites(f).value, kpis, thresholds)
    ensures NoneRaise(run.calls)
  {
    var calls := run.calls;
    if calls != [] {
      var last := calls[|calls| - 1];
      PlotDoesNotRaise(f, last.request, outputDir, toTime, last.outcome);
    }
    StopsWithoutRaise(calls, Schedule(AllSites(f).value, kpis, thresholds));
  }
}
