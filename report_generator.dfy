/** `generate_anomaly_summary`: the static-threshold rule of the report. Rows
    whose KPI value crosses the threshold in the configured direction are
    anomalies, and the summary text counts them and lists one bullet each. */
module ReportGenerator {
  import opened Frames
  import opened Sequences
  import opened Strings

  /** The direction label under which values above the threshold are
      anomalies; every other label means values below it are. */
  const MaximumDirection: string := "Maximum à ne pas dépasser"

  /** One row of the table as the summary reads it: its `Date` text and its
      KPI value (`None` for a missing value). */
  datatype Row = Row(date: string, value: Option<real>)

  /** `df[kpi] > threshold` under the maximum direction, `df[kpi] < threshold`
      under any other; a missing value compares `False` either way. */
  predicate IsAnomaly(r: Row, threshold: real, direction: string)
  {
    r.value.Some? &&
    if direction == MaximumDirection then r.value.value > threshold else r.value.value < threshold
  }

  /** The boolean mask `df[kpi] > threshold` (or `<`) as a function on rows. */
  function AnomalyMask(threshold: real, direction: string): Row -> bool
  {
    r => IsAnomaly(r, threshold, direction)
  }

  /** The anomalous rows, in table order (`df[mask]`): every selected row is
      a row of the table and an anomaly, and every anomalous row is selected. */
  function SelectAnomalies(rows: seq<Row>, threshold: real, direction: string): (a: seq<Row>)
    ensures |a| <= |rows|
    ensures forall k :: 0 <= k < |a| ==> a[k] in rows && IsAnomaly(a[k], threshold, direction)
    ensures forall i :: 0 <= i < |rows| && IsAnomaly(rows[i], threshold, direction) ==> rows[i] in a
  {
    FilterMembership(rows, AnomalyMask(threshold, direction));
    Filter(rows, AnomalyMask(threshold, direction))
  }

  /** Under the maximum direction a row is selected exactly when its value is
      present and strictly above the threshold. */
  lemma MaximumSelectsAbove(rows: seq<Row>, threshold: real, i: nat)
    requires i < |rows|
    ensures rows[i] in SelectAnomalies(rows, threshold, MaximumDirection) <==>
      rows[i].value.Some? && rows[i].value.value > threshold
  {
  }

  /** Under any other direction label, recognised or not, a row is selected
      exactly when its value is present and strictly below the threshold. */
  lemma OtherDirectionSelectsBelow(rows: seq<Row>, threshold: real, direction: string, i: nat)
    requires direction != MaximumDirection
    requires i < |rows|
    ensures rows[i] in SelectAnomalies(rows, threshold, direction) <==>
      rows[i].value.Some? && rows[i].value.value < threshold
  {
  }

  /** A value equal to the threshold is never an anomaly. */
  lemma AtThresholdNeverSelected(rows: seq<Row>, threshold: real, direction: string)
    ensures forall k :: 0 <= k < |SelectAnomalies(rows, threshold, direction)| ==>
      SelectAnomalies(rows, threshold, direction)[k].value != Some(threshold)
  {
    var a := SelectAnomalies(rows, threshold, direction);
    forall k | 0 <= k < |a| ensures a[k].value != Some(threshold) {
      assert IsAnomaly(a[k], threshold, direction);
    }
  }

  /** The selected rows are an order-preserving subsequence of the table: the
      k-th selected row is the row at the k-th kept position, kept positions
      ascend, and a position is kept exactly when its row is an anomaly. */
  lemma SelectionKeepsTableOrder(rows: seq<Row>, threshold: real, direction: string)
    ensures var a, ix := SelectAnomalies(rows, threshold, direction),
                        KeptIndices(rows, AnomalyMask(threshold, direction));
      && |ix| == |a|
      && (forall k :: 0 <= k < |a| ==> a[k] == rows[ix[k]])
      && (forall k, l :: 0 <= k < l < |ix| ==> ix[k] < ix[l])
      && (forall i :: 0 <= i < |rows| ==> (i in ix <==> IsAnomaly(rows[i], threshold, direction)))
  {
    FilterIsOrderedSubsequence(rows, AnomalyMask(threshold, direction));
  }

  // ---------------------------------------------------------------------------
  // The summary text

  /** The text returned when nothing is selected. */
  function NoAnomalyText(kpi: string): string
  {
    "Aucune anomalie détectée sur le KPI " + kpi + "."
  }

  /** The count line and the threshold line, followed by an empty line.
      `thresholdText` is `str(threshold)`. */
  function Header(count: nat, kpi: string, thresholdText: string, direction: string): string
  {
    NatToString(count) + " anomalies détectées sur le KPI " + kpi + ".\n"
    + "Seuil : " + thresholdText + " (" + direction + ")\n\n"
  }

  /** The bullet of one selected row; `fixed2` is the `:.2f` rendering. */
  function Bullet(r: Row, fixed2: real -> string): string
    requires r.value.Some?
  {
    "• Le " + r.date + ", valeur = " + fixed2(r.value.value) + "\n"
  }

  /** One bullet per row, in the order of `a`. */
  function Bullets(a: seq<Row>, fixed2: real -> string): string
    requires forall k :: 0 <= k < |a| ==> a[k].value.Some?
  {
    if a == [] then [] else Bullets(a[..|a| - 1], fixed2) + Bullet(a[|a| - 1], fixed2)
  }

  /** The text `generate_anomaly_summary` returns. */
  function Summary(rows: seq<Row>, kpi: string, threshold: real, direction: string,
                   show: real -> string, fixed2: real -> string): string
  {
    var a := SelectAnomalies(rows, threshold, direction);
    if a == [] then NoAnomalyText(kpi)
    else Header(|a|, kpi, show(threshold), direction) + Bullets(a, fixed2)
  }

  /** `generate_anomaly_summary(df, kpi, threshold, direction)` over the rows
      of `df`: select, then build the text line by line. `show` renders the
      threshold as Python's `str` does and `fixed2` renders a value with two
      decimals. */
  method GenerateAnomalySummary(rows: seq<Row>, kpi: string, threshold: real, direction: string,
                                show: real -> string, fixed2: real -> string)
    returns (summary: string)
    ensures summary == Summary(rows, kpi, threshold, direction, show, fixed2)
  {
    var anomalies := SelectAnomalies(rows, threshold, direction);
    if |anomalies| == 0 {
      return NoAnomalyText(kpi);
    }
    summary := NatToString(|anomalies|) + " anomalies détectées sur le KPI " + kpi + ".\n";
    summary := summary + "Seuil : " + show(threshold) + " (" + direction + ")\n\n";
    var k := 0;
    while k < |anomalies|
      invariant 0 <= k <= |anomalies|
      invariant summary == Header(|anomalies|, kpi, show(threshold), direction) + Bullets(anomalies[..k], fixed2)
    {
      var row := anomalies[k];
      assert anomalies[..k + 1][..k] == anomalies[..k];
      summary := summary + "• Le " + row.date + ", valeur = " + fixed2(row.value.value) + "\n";
      k := k + 1;
    }
    assert anomalies[..k] == anomalies;
  }

  /** With nothing selected the summary is exactly the no-anomaly sentence;
      otherwise it is not that sentence, since it opens with a digit. */
  lemma SummaryEmptyCase(rows: seq<Row>, kpi: string, threshold: real, direction: string,
                         show: real -> string, fixed2: real -> string)
    ensures Summary(rows, kpi, threshold, direction, show, fixed2) == NoAnomalyText(kpi)
      <==> SelectAnomalies(rows, threshold, direction) == []
  {
    var a := SelectAnomalies(rows, threshold, direction);
    if a != [] {
      var s := Summary(rows, kpi, threshold, direction, show, fixed2);
      assert s[0] == NatToString(|a|)[0];
      assert NoAnomalyText(kpi)[0] == 'A';
    }
  }

  /** The number that opens a non-empty summary is the number of selected rows. */
  lemma SummaryCountsAnomalies(rows: seq<Row>, kpi: string, threshold: real, direction: string,
                               show: real -> string, fixed2: real -> string)
    requires SelectAnomalies(rows, threshold, direction) != []
    ensures ParseDigits(LeadingDigits(Summary(rows, kpi, threshold, direction, show, fixed2)))
      == |SelectAnomalies(rows, threshold, direction)|
  {
    var a := SelectAnomalies(rows, threshold, direction);
    var digits := NatToString(|a|);
    var rest := " anomalies détectées sur le KPI " + kpi + ".\n"
      + "Seuil : " + show(threshold) + " (" + direction + ")\n\n" + Bullets(a, fixed2);
    assert Summary(rows, kpi, threshold, direction, show, fixed2) == digits + rest;
    LeadingDigitsOf(digits, rest);
    ParseNatToString(|a|);
  }

  lemma {:induction false} BulletsLineCount(a: seq<Row>, fixed2: real -> string)
    requires forall k :: 0 <= k < |a| ==> a[k].value.Some?
    requires forall k :: 0 <= k < |a| ==> '\n' !in a[k].date && '\n' !in fixed2(a[k].value.value)
    ensures CountChar(Bullets(a, fixed2), '\n') == |a|
  {
    if a != [] {
      var r := a[|a| - 1];
      BulletsLineCount(a[..|a| - 1], fixed2);
      CountCharAppend(Bullets(a[..|a| - 1], fixed2), Bullet(r, fixed2), '\n');
      BulletLineCount(r, fixed2);
    }
  }

  lemma BulletLineCount(r: Row, fixed2: real -> string)
    requires r.value.Some?
    requires '\n' !in r.date && '\n' !in fixed2(r.value.value)
    ensures CountChar(Bullet(r, fixed2), '\n') == 1
  {
    var v := fixed2(r.value.value);
    var body := "• Le " + r.date + ", valeur = " + v;
    assert '\n' !in body by {
      assert '\n' !in "• Le ";
      assert '\n' !in ", valeur = ";
    }
    assert Bullet(r, fixed2) == body + "\n";
    CountCharAppend(body, "\n", '\n');
  }

  lemma HeaderLineCount(count: nat, kpi: string, thresholdText: string, direction: string)
    requires '\n' !in kpi && '\n' !in thresholdText && '\n' !in direction
    ensures CountChar(Header(count, kpi, thresholdText, direction), '\n') == 3
  {
    var digits := NatToString(count);
    DigitsHaveNoLineBreak(count);
    var p1 := digits + " anomalies détectées sur le KPI ";
    var p2 := p1 + kpi;
    var p3 := p2 + ".\n";
    var p4 := p3 + "Seuil : ";
    var p5 := p4 + thresholdText;
    var p6 := p5 + " (";
    var p7 := p6 + direction;
    assert Header(count, kpi, thresholdText, direction) == p7 + ")\n\n";
    NoLineBreaks();
    LineBreakCounts();
    CountCharAppend(digits, " anomalies détectées sur le KPI ", '\n');
    CountCharAppend(p1, kpi, '\n');
    CountCharAppend(p2, ".\n", '\n');
    CountCharAppend(p3, "Seuil : ", '\n');
    CountCharAppend(p4, thresholdText, '\n');
    CountCharAppend(p5, " (", '\n');
    CountCharAppend(p6, direction, '\n');
    CountCharAppend(p7, ")\n\n", '\n');
  }

  lemma DigitsHaveNoLineBreak(n: nat)
    ensures CountChar(NatToString(n), '\n') == 0
  {
    var digits := NatToString(n);
    forall i | 0 <= i < |digits| ensures digits[i] != '\n' {
      assert IsDigit(digits[i]);
    }
  }

  lemma NoLineBreaks()
    ensures '\n' !in " anomalies détectées sur le KPI "
    ensures '\n' !in "Seuil : " && '\n' !in " ("
  {
  }

  lemma LineBreakCounts()
    ensures CountChar(".\n", '\n') == 1 && CountChar(")\n\n", '\n') == 2
  {
    assert ".\n"[1..] == "\n" && "\n"[1..] == [];
    assert ")\n\n"[1..] == "\n\n" && "\n\n"[1..] == "\n";
  }

  /** When no field contains a line break, a non-empty summary has exactly
      three line breaks in its header and one per selected row: one bullet
      line per anomaly. */
  lemma SummaryLineCount(rows: seq<Row>, kpi: string, threshold: real, direction: string,
                         show: real -> string, fixed2: real -> string)
    requires SelectAnomalies(rows, threshold, direction) != []
    requires '\n' !in kpi && '\n' !in direction && '\n' !in show(threshold)
    requires forall i :: 0 <= i < |rows| ==> '\n' !in rows[i].date
    requires forall x: real :: '\n' !in fixed2(x)
    ensures CountChar(Summary(rows, kpi, threshold, direction, show, fixed2), '\n')
      == 3 + |SelectAnomalies(rows, threshold, direction)|
  {
    var a := SelectAnomalies(rows, threshold, direction);
    forall k | 0 <= k < |a| ensures '\n' !in a[k].date {
      var i :| 0 <= i < |rows| && rows[i] == a[k];
    }
    BulletsLineCount(a, fixed2);
    HeaderLineCount(|a|, kpi, show(threshold), direction);
    CountCharAppend(Header(|a|, kpi, show(threshold), direction), Bullets(a, fixed2), '\n');
  }
}
