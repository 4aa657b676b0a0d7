/** `get_kpi_info` and `categorize_kpi`: the fixed dictionary of KPI
    definitions, and the category a KPI name falls under. */
module KpiUtils {
  import opened Frames

  /** One entry of the dictionary: its "description", "Catégorie", "formula"
      and "Unité" fields. */
  datatype KpiInfo = KpiInfo(description: string, category: string, formula: string, unit: string)

  const Unknown: string := "Inconnu"

  /** The dictionary built by `get_kpi_info`, entry for entry. */
  const KpiDefinitions: map<string, KpiInfo> := map[
    "RRC Setup Fail" := KpiInfo(
      "Mesure les échecs d'établissement de connexions RRC (Radio Resource Control) ; indique des problèmes d'accessibilité.",
      "Accessibilité",
      "La somme de tous les échecs d'établissement de connexions RRC.",
      "-"),
    "RRC_Success_Rate" := KpiInfo(
      "Taux de réussite d'établissement des connexions RRC (Radio Resource Control) entre l'UE et le réseau.",
      "Accessibilité",
      "RRC Setup Success Rate = (RRC Setup Successes / RRC Setup Attempts) x 100",
      "%"),
    "VoLTE Traffic" := KpiInfo(
      "Volume de trafic voix sur LTE ; utile pour analyser la charge VoLTE et l'usage des services voix.",
      "Performance", "", ""),
    "4G PS Traffic" := KpiInfo("", "", "", ""),
    "Erab_Succes_Rate" := KpiInfo(
      "Taux de réussite de l'établissement des bearers E-RAB, reflète la capacité à établir les connexions data.",
      "Accessibilité",
      "Erab Setup Success Rate = (Erab Setup Successes / Erab Setup Attempts) x 100",
      "%"),
    "4G Cell Availability" := KpiInfo("", "", "", ""),
    "CSSR 4G" := KpiInfo(
      "Taux global de réussite des tentatives d'établissement d'appel voix (circuit ou VoIP).",
      "Accessibilité",
      "CSSR = (Number of Successful Call Setups / Total Number of Call Attempts) x 100",
      "%"),
    "CSR" := KpiInfo("", "", "", ""),
    "DL User throughput" := KpiInfo("", "Intégrité", "", "bps"),
    "UL User throughput" := KpiInfo("", "Intégrité", "", "bps"),
    "DL PRB Usage" := KpiInfo("", "", "", ""),
    "CDR" := KpiInfo(
      "Pourcentage d'appels voix interrompus après avoir été établis avec succès. Indicateur de stabilité du service voix.",
      "Stabilité",
      "CDR = (Nombre d'appels interrompus / Nombre total d'appels établis) x 100",
      "%"),
    "CSFB Success Rate" := KpiInfo("", "", "", ""),
    "S1_Succes_Rate" := KpiInfo(
      "S1 Setup Success Rate désigne le pourcentage de connexions de signalisation établies avec succès entre les eNodeB et les entités de gestion de la mobilité (MME) via l'interface S1",
      "Accessibilité",
      "S1-Setup Success Rate = (S1 Setup Successes / S1 Setup Attempts) x 100",
      "%"),
    "Handover Success Rate" := KpiInfo("", "Mobilité", "", ""),
    "UL interference" := KpiInfo("", "", "", ""),
    "Average RSRP Reported" := KpiInfo("", "", "", ""),
    "SINR" := KpiInfo("", "", "", "")
  ]

  /** The categories the dictionary uses; the empty string marks a KPI whose
      category is not filled in. */
  const Categories: set<string> := {"Accessibilité", "Performance", "Intégrité", "Stabilité", "Mobilité", ""}

  /** `get_kpi_info(kpi_name)`: `kpi_definitions.get(kpi_name)`. */
  function GetKpiInfo(name: string): (r: Option<KpiInfo>)
    ensures r.None? <==> name !in KpiDefinitions
    ensures r.Some? ==> r.value.category in Categories && r.value.unit in {"", "-", "%", "bps"}
  {
    if name in KpiDefinitions then Some(KpiDefinitions[name]) else None
  }

  /** `categorize_kpi(kpi_name)`: the entry's category, or "Inconnu" for a
      name without an entry. Every entry is a non-empty dictionary, so an
      entry whose category is the empty string still yields that string. */
  function CategorizeKpi(name: string): (c: string)
    ensures c == Unknown <==> name !in KpiDefinitions
    ensures name in KpiDefinitions ==> c == KpiDefinitions[name].category
    ensures c in Categories || c == Unknown
  {
    match GetKpiInfo(name)
    case Some(info) => info.category
    case None => Unknown
  }

  /** The five named categories each hold at least one KPI: the
      dictionary's values cover `Categories`. */
  lemma EveryCategoryUsed()
    ensures forall c :: c in Categories ==> exists k :: k in KpiDefinitions && KpiDefinitions[k].category == c
  {
    assert KpiDefinitions["RRC Setup Fail"].category == "Accessibilité";
    assert KpiDefinitions["VoLTE Traffic"].category == "Performance";
    assert KpiDefinitions["DL User throughput"].category == "Intégrité";
    assert KpiDefinitions["CDR"].category == "Stabilité";
    assert KpiDefinitions["Handover Success Rate"].category == "Mobilité";
    assert KpiDefinitions["SINR"].category == "";
  }

  /** Lookups are exact: an entry with an empty category yields the empty
      string, not "Inconnu", and a near-miss spelling yields "Inconnu". */
  lemma CategoryExamples()
    ensures CategorizeKpi("CDR") == "Stabilité"
    ensures CategorizeKpi("Handover Success Rate") == "Mobilité"
    ensures CategorizeKpi("DL User throughput") == "Intégrité"
    ensures CategorizeKpi("4G PS Traffic") == ""
    ensures CategorizeKpi("RRC_Succes_Rate") == Unknown
  {
  }

  /** The 4G KPI columns that the correlation heatmap reads. */
  const Kpis4G: seq<string> := [
    "RRC Setup Fail", "RRC_Succes_Rate", "VoLTE Traffic", "4G PS Traffic(GB)",
    "Average Nb of Users", "Erab_Succes_Rate", "4G_Cell_Availability(%)", "CSSR 4G",
    "4G_CSR_(HM)", "DL User throughput", "UL User throughput", "DL PRB Usage(%)",
    "CDR_DDRX (%) LH", "4G_CSFB Success Rate(%)(%)", "S1_Succes_Rate",
    "Handover success rate of CA UEs", "Active User", "UL interference",
    "Average RSRP Reported(dBm)"
  ]

  /** The categories of the 4G KPI columns. Eleven of the nineteen column
      names have no entry, because the dictionary's keys are spelled
      differently from the columns: "RRC_Success_Rate" against
      'RRC_Succes_Rate', "CDR" against 'CDR_DDRX (%) LH', and so on. */
  lemma Kpis4GCategories()
    ensures forall i :: 0 <= i < |Kpis4G| ==> CategorizeKpi(Kpis4G[i]) == Kpis4GExpected[i]
  {
    forall i | 0 <= i < |Kpis4G| ensures CategorizeKpi(Kpis4G[i]) == Kpis4GExpected[i] {
      Kpi4GCategory(i);
    }
  }

  const Kpis4GExpected: seq<string> := [
    "Accessibilité", Unknown, "Performance", Unknown,
    Unknown, "Accessibilité", Unknown, "Accessibilité",
    Unknown, "Intégrité", "Intégrité", Unknown,
    Unknown, Unknown, "Accessibilité",
    Unknown, Unknown, "",
    Unknown]

  lemma Kpi4GCategory(i: nat)
    requires i < |Kpis4G|
    ensures CategorizeKpi(Kpis4G[i]) == Kpis4GExpected[i]
  {
    if i == 0 { assert Kpis4G[i] == "RRC Setup Fail"; }
    else if i == 1 { assert Kpis4G[i] == "RRC_Succes_Rate"; }
    else if i == 2 { assert Kpis4G[i] == "VoLTE Traffic"; }
    else if i == 3 { assert Kpis4G[i] == "4G PS Traffic(GB)"; }
    else if i == 4 { assert Kpis4G[i] == "Average Nb of Users"; }
    else if i == 5 { assert Kpis4G[i] == "Erab_Succes_Rate"; }
    else if i == 6 { assert Kpis4G[i] == "4G_Cell_Availability(%)"; }
    else if i == 7 { assert Kpis4G[i] == "CSSR 4G"; }
    else if i == 8 { assert Kpis4G[i] == "4G_CSR_(HM)"; }
    else if i == 9 { assert Kpis4G[i] == "DL User throughput"; }
    else if i == 10 { assert Kpis4G[i] == "UL User throughput"; }
    else if i == 11 { assert Kpis4G[i] == "DL PRB Usage(%)"; }
    else if i == 12 { assert Kpis4G[i] == "CDR_DDRX (%) LH"; }
    else if i == 13 { assert Kpis4G[i] == "4G_CSFB Success Rate(%)(%)"; }
    else if i == 14 { assert Kpis4G[i] == "S1_Succes_Rate"; }
    else if i == 15 { assert Kpis4G[i] == "Handover success rate of CA UEs"; }
    else if i == 16 { assert Kpis4G[i] == "Active User"; }
    else if i == 17 { assert Kpis4G[i] == "UL interference"; }
    else { assert Kpis4G[i] == "Average RSRP Reported(dBm)"; }
  }
}
