/** `get_site_column` and `get_sites_list`: which column of the table names
    the sites, and the sites it names. */
module SiteUtils {
  import opened Frames
  import opened Sequences

  /** The candidate site columns, in order of preference. */
  const SiteColumnCandidates: seq<string> := ["eNodeB Name", "eNodeB Function Name", "Cell Name", "LocalCell Id"]

  /** The first of `candidates` that is among `names`. */
  function FirstPresent(candidates: seq<string>, names: seq<string>): (r: Option<string>)
    ensures r.None? <==> forall k :: 0 <= k < |candidates| ==> candidates[k] !in names
    ensures r.Some? ==> exists k :: 0 <= k < |candidates| && candidates[k] == r.value
    ensures r.Some? ==> r.value in names
  {
    if candidates == [] then None
    else if candidates[0] in names then Some(candidates[0])
    else
      var rest := FirstPresent(candidates[1..], names);
      assert forall k :: 1 <= k < |candidates| ==> candidates[k] == candidates[1..][k - 1];
      rest
  }

  /** `FirstPresent` picks the earliest candidate present: when candidate
      `k` is among `names` and no earlier one is, it returns candidate `k`. */
  lemma {:induction false} FirstPresentIsFirst(candidates: seq<string>, names: seq<string>, k: nat)
    requires k < |candidates| && candidates[k] in names
    requires forall l :: 0 <= l < k ==> candidates[l] !in names
    ensures FirstPresent(candidates, names) == Some(candidates[k])
  {
    if k > 0 {
      assert candidates[0] !in names;
      FirstPresentIsFirst(candidates[1..], names, k - 1);
    }
  }

  /** `get_site_column(df)`: the first candidate that is a column of `df`,
      or `None` when none is. */
  function GetSiteColumn(f: Frame): (r: Option<string>)
    ensures r.None? <==> forall k :: 0 <= k < |SiteColumnCandidates| ==> SiteColumnCandidates[k] !in Names(f)
    ensures r.Some? ==> r.value in SiteColumnCandidates && r.value in Names(f)
  {
    FirstPresent(SiteColumnCandidates, Names(f))
  }

  /** The candidates are tried in their fixed order: when candidate `k`
      names a column and no earlier candidate does, it is the site column. */
  lemma SiteColumnPriority(f: Frame, k: nat)
    requires k < |SiteColumnCandidates| && SiteColumnCandidates[k] in Names(f)
    requires forall l :: 0 <= l < k ==> SiteColumnCandidates[l] !in Names(f)
    ensures GetSiteColumn(f) == Some(SiteColumnCandidates[k])
  {
    FirstPresentIsFirst(SiteColumnCandidates, Names(f), k);
  }

  /** `df[col].dropna()`: the non-missing cells, in order. */
  function NonMissing(cells: seq<Cell>): (r: seq<Cell>)
    ensures forall i :: 0 <= i < |r| ==> r[i] != Missing && r[i] in cells
    ensures forall i :: 0 <= i < |cells| && cells[i] != Missing ==> cells[i] in r
  {
    FilterMembership(cells, c => c != Missing);
    Filter(cells, c => c != Missing)
  }

  /** `get_sites_list(df)`: the distinct non-missing values of the site
      column, in order of first appearance, with the column's name; `([], None)`
      when there is no site column (`SitesListContents` and `SitesListOrder`
      state the list's contents and order). */
  function GetSitesList(f: Frame): (r: (seq<Cell>, Option<string>))
    requires WellFormed(f)
    ensures r.1 == GetSiteColumn(f)
    ensures r.1.None? ==> r.0 == []
  {
    match GetSiteColumn(f)
    case None => ([], None)
    case Some(col) =>
      var j := IndexOf(Names(f), col).value;
      (Unique(NonMissing(ColumnCells(f, j))), Some(col))
  }

  /** The site list holds every non-missing value of the site column exactly
      once, and nothing else: no missing entry, no value from elsewhere. */
  lemma SitesListContents(f: Frame)
    requires WellFormed(f) && GetSiteColumn(f).Some?
    ensures var j := IndexOf(Names(f), GetSiteColumn(f).value).value;
            var sites := GetSitesList(f).0;
      && j < |f.columns| && f.columns[j].name == GetSiteColumn(f).value
      && Distinct(sites)
      && (forall k :: 0 <= k < |sites| ==> sites[k] != Missing && sites[k] in ColumnCells(f, j))
      && (forall r :: 0 <= r < |f.rows| && f.rows[r][j] != Missing ==> f.rows[r][j] in sites)
  {
    var j := IndexOf(Names(f), GetSiteColumn(f).value).value;
    var cells := ColumnCells(f, j);
    var present := NonMissing(cells);
    var sites := Unique(present);
    forall k | 0 <= k < |sites| ensures sites[k] != Missing && sites[k] in cells {
      var m :| 0 <= m < |present| && present[m] == sites[k];
    }
    forall r | 0 <= r < |f.rows| && f.rows[r][j] != Missing ensures f.rows[r][j] in sites {
      assert cells[r] == f.rows[r][j];
      var m :| 0 <= m < |present| && present[m] == cells[r];
    }
  }

  /** The sites come in the order in which they first appear in the column. */
  lemma SitesListOrder(f: Frame)
    requires WellFormed(f) && GetSiteColumn(f).Some?
    ensures var j := IndexOf(Names(f), GetSiteColumn(f).value).value;
            var present := NonMissing(ColumnCells(f, j));
            var sites := GetSitesList(f).0;
      forall a, b :: 0 <= a < b < |sites| ==> FirstIndex(present, sites[a]) < FirstIndex(present, sites[b])
  {
    var j := IndexOf(Names(f), GetSiteColumn(f).value).value;
    UniqueKeepsFirstAppearanceOrder(NonMissing(ColumnCells(f, j)));
  }
}
