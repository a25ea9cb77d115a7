/** The map view of a table (`/tableaux/{id}/analyser/carte`): the colour of each wilaya from its value,
    and the year selected when the data first arrives. */
module AnalyseCarte {
  import opened Wrappers

  /** What `/api/tableaux/{id}/carte/` answers: a title, the years on offer and one value per
      wilaya name. */
  datatype DonneesCarte = DonneesCarte(titre: string, annees: seq<string>, valeurs: map<string, real>)

  /** `donnees?.valeurs?.[nom] || 0`: the wilaya's value, 0 before the data arrives or when the
      wilaya has no value. */
  function WilayaValue(donnees: Option<DonneesCarte>, nom: string): (v: real)
    ensures donnees.None? || nom !in donnees.value.valeurs ==> v == 0.0
    ensures donnees.Some? && nom in donnees.value.valeurs ==> v == donnees.value.valeurs[nom]
  {
    if donnees.Some? && nom in donnees.value.valeurs then donnees.value.valeurs[nom] else 0.0
  }

  /** The fill colour of a value: strict thresholds, darkest first; "#ccc" for 0 and below. */
  function FillColor(valeur: real): string {
    if valeur > 10000000.0 then "#084081"
    else if valeur > 5000000.0 then "#0868ac"
    else if valeur > 1000000.0 then "#2b8cbe"
    else if valeur > 500000.0 then "#4eb3d3"
    else if valeur > 100000.0 then "#7bccc4"
    else if valeur > 0.0 then "#a8ddb5"
    else "#ccc"
  }

  /** The thresholds, lightest first. */
  const THRESHOLDS: seq<real> := [0.0, 100000.0, 500000.0, 1000000.0, 5000000.0, 10000000.0]

  /** The colours, from the one for no value to the darkest. */
  const PALETTE: seq<string> := ["#ccc", "#a8ddb5", "#7bccc4", "#4eb3d3", "#2b8cbe", "#0868ac", "#084081"]

  /** How many of the thresholds `ts` a value passes strictly. */
  function Passed(ts: seq<real>, v: real): (n: nat)
    ensures n <= |ts|
  {
    if ts == [] then 0 else (if v > ts[0] then 1 else 0) + Passed(ts[1..], v)
  }

  /** A larger value passes at least as many thresholds. */
  lemma {:induction false} PassedMonotone(ts: seq<real>, v: real, w: real)
    requires v <= w
    ensures Passed(ts, v) <= Passed(ts, w)
  {
    if ts != [] {
      PassedMonotone(ts[1..], v, w);
    }
  }

  /** The colour of a value is the palette entry of the number of thresholds it passes. */
  lemma FillColorByRank(valeur: real)
    ensures FillColor(valeur) == PALETTE[Passed(THRESHOLDS, valeur)]
  {
    var v := valeur;
    var t5: seq<real> := [10000000.0];
    var t4: seq<real> := [5000000.0] + t5;
    var t3: seq<real> := [1000000.0] + t4;
    var t2: seq<real> := [500000.0] + t3;
    var t1: seq<real> := [100000.0] + t2;
    assert THRESHOLDS == [0.0] + t1;
    assert t5[1..] == [];
    assert Passed(t5, v) == if v > 10000000.0 then 1 else 0;
    assert Passed(t4, v) == (if v > 5000000.0 then 1 else 0) + Passed(t5, v) by { assert t4[1..] == t5; }
    assert Passed(t3, v) == (if v > 1000000.0 then 1 else 0) + Passed(t4, v) by { assert t3[1..] == t4; }
    assert Passed(t2, v) == (if v > 500000.0 then 1 else 0) + Passed(t3, v) by { assert t2[1..] == t3; }
    assert Passed(t1, v) == (if v > 100000.0 then 1 else 0) + Passed(t2, v) by { assert t1[1..] == t2; }
    assert Passed(THRESHOLDS, v) == (if v > 0.0 then 1 else 0) + Passed(t1, v) by { assert THRESHOLDS[1..] == t1; }
  }

  /** The bucket is monotone: a larger value never gets a lighter colour. */
  lemma FillColorMonotone(v: real, w: real)
    requires v <= w
    ensures Passed(THRESHOLDS, v) <= Passed(THRESHOLDS, w)
    ensures FillColor(v) == PALETTE[Passed(THRESHOLDS, v)] && FillColor(w) == PALETTE[Passed(THRESHOLDS, w)]
  {
    PassedMonotone(THRESHOLDS, v, w);
    FillColorByRank(v);
    FillColorByRank(w);
  }

  /** The thresholds are strict: a value equal to one falls in the lighter bucket, so 100000
      gets the lightest colour; any value at or below 0 gets "#ccc". */
  lemma FillColorEdges(v: real)
    ensures FillColor(100000.0) == "#a8ddb5"
    ensures v <= 0.0 <==> FillColor(v) == "#ccc"
  {
  }

  /** The drawing style of a wilaya. */
  datatype Style = Style(fillColor: string, weight: int, opacity: int, color: string, fillOpacity: real)

  /** `getStyle`: the fill colour of the wilaya's value; every other field is fixed. */
  function GetStyle(donnees: Option<DonneesCarte>, nom: string): (s: Style)
    ensures s.weight == 1 && s.opacity == 1 && s.color == "gray" && s.fillOpacity == 0.7
  {
    Style(FillColor(WilayaValue(donnees, nom)), 1, 1, "gray", 0.7)
  }

  /** A wilaya without a value is drawn grey; the style differs between wilayas only by the
      bucket of their values. */
  lemma GetStyleOf(donnees: Option<DonneesCarte>, nom: string, other: string)
    ensures donnees.None? || nom !in donnees.value.valeurs ==> GetStyle(donnees, nom).fillColor == "#ccc"
    ensures Passed(THRESHOLDS, WilayaValue(donnees, nom)) == Passed(THRESHOLDS, WilayaValue(donnees, other)) ==>
              GetStyle(donnees, nom) == GetStyle(donnees, other)
  {
    FillColorByRank(WilayaValue(donnees, nom));
    FillColorByRank(WilayaValue(donnees, other));
  }

  /** The heading: the table's title, or "Carte des données" while there is none. */
  function Heading(donnees: Option<DonneesCarte>): (h: string)
    ensures donnees.Some? && donnees.value.titre != "" ==> h == donnees.value.titre
    ensures donnees.None? || donnees.value.titre == "" ==> h == "Carte des données"
  {
    if donnees.Some? && donnees.value.titre != "" then donnees.value.titre else "Carte des données"
  }

  /** The first answer arrives: it is held; when it offers years, the first one is selected and
      its data requested (the year of the follow-up request). */
  function FirstLoad(selected: string, data: DonneesCarte): (r: (Option<DonneesCarte>, string, Option<string>))
    ensures r.0 == Some(data)
    ensures |data.annees| > 0 ==> r.1 == data.annees[0] && r.2 == Some(data.annees[0])
    ensures |data.annees| == 0 ==> r.1 == selected && r.2 == None
  {
    if |data.annees| > 0 then (Some(data), data.annees[0], Some(data.annees[0]))
    else (Some(data), selected, None)
  }

  /** The address of the data of table `id` (the route parameter), for a year or the default
      one; nothing is requested without an id. */
  function CarteUrl(id: Option<string>, annee: Option<string>): (u: Option<string>)
    ensures u.None? <==> id.None? || id == Some("")
  {
    if id.None? || id.value == "" then None
    else if annee.None? then Some("/api/tableaux/" + id.value + "/carte/")
    else Some("/api/tableaux/" + id.value + "/carte/?annee=" + annee.value)
  }
}
