/** The `cluster_keywords` table of assign_company_to_cluster.py and what its contents entail. */
module ClusterTable {
  import opened Text
  import opened ClusterAssignment

  /** The number of clusters in `cluster_keywords`. */
  const ClusterCount := 22

  /** The cluster names of `cluster_keywords` (its keys), in insertion order: the priority order. */
  function ClusterName(i: nat): string
    requires i < ClusterCount
  {
    if i == 0 then "Alten- / Pflegeheim"
    else if i == 1 then "Rechenzentrum"
    else if i == 2 then "Labor"
    else if i == 3 then "Krankenhaus"
    else if i == 4 then "Lagerhalle"
    else if i == 5 then "Bibliothek"
    else if i == 6 then "Schule"
    else if i == 7 then "Kindergarten"
    else if i == 8 then "Supermarkt"
    else if i == 9 then "Einkaufszentrum"
    else if i == 10 then "Hotel"
    else if i == 11 then "Restaurant"
    else if i == 12 then "Kantine"
    else if i == 13 then "Fitnesscenter"
    else if i == 14 then "Sporthalle"
    else if i == 15 then "Schwimmbad"
    else if i == 16 then "Theater"
    else if i == 17 then "Museum"
    else if i == 18 then "Einzelhandel"
    else if i == 19 then "Produktion"
    else if i == 20 then "Büro"
    else "Parkhaus"
  }

  // The keyword lists of `cluster_keywords`, as listed; keywords listed twice in the source are listed twice here.

  const PflegeheimKeywords: seq<Keyword> := [
    Kw("pflegeheim"), Kw("pflegedienst"), Kw("betreutes wohnen"), Kw("alten")
  ]

  const RechenzentrumKeywords: seq<Keyword> := [
    Kw("rechenzentrum"), Kw("server"), Kw("telekommunikation"), Kw("it-netzwerke"),
    Kw("it-hardware"), Kw("hosting")
  ]

  const LaborKeywords: seq<Keyword> := [
    Kw("labor"), Kw("diagnostik"), Kw("pharmazie"), Kw("biotechnologie"), Kw("medizintechnik"),
    Kw("therapietechnik"), Kw("photonik"), Kw("optik"), Kw("laser"), Kw("mikrosysteme"),
    Kw("materialien"), Kw("reinraum"), Kw("umweltanalytik / schadstoffanalytik"),
    Kw("mems / sensoren")
  ]

  const KrankenhausKeywords: seq<Keyword> := [
    Kw("krankenhaus"), Kw("klinik"), Kw("radiologie"), Kw("onkologie"), Kw("chirurgie"),
    Kw("internisten"), Kw("kardiologie"), Kw("medizinisches zentrum"), Kw("arztpraxen"),
    Kw("neurologie, psychotherapie / psychiatrie"), Kw("arbeitsmedizin")
  ]

  const LagerhalleKeywords: seq<Keyword> := [
    Kw("lager"), Kw("logistik"), Kw("transport"), Kw("kurierdienste"), Kw("großhandel"),
    Kw("reinigung"), Kw("facility"), Kw("service"), Kw("gebäudereinigung")
  ]

  const BibliothekKeywords: seq<Keyword> := [
    Kw("bibliothek"), Kw("archiv")
  ]

  const SchuleKeywords: seq<Keyword> := [
    Kw("schule"), Kw("ausbildung"), Kw("weiterbildung"), Kw("fahrschule"),
    Kw("universitäre einrichtungen")
  ]

  const KindergartenKeywords: seq<Keyword> := [
    Kw("kinderbetreuung")
  ]

  const SupermarktKeywords: seq<Keyword> := [
    Kw("supermarkt"), Kw("lebensmittel"), Kw("bäckerei"), Kw("fleischerei")
  ]

  const EinkaufszentrumKeywords: seq<Keyword> := [
    Kw("einkaufszentrum")
  ]

  const HotelKeywords: seq<Keyword> := [
    Kw("hotels / unterkünfte")
  ]

  const RestaurantKeywords: seq<Keyword> := [
    Kw("restaurant"), Kw("gastronomie"), Kw("catering"), Kw("event-gastronomie")
  ]

  const KantineKeywords: seq<Keyword> := [
    Kw("kantine")
  ]

  const FitnesscenterKeywords: seq<Keyword> := [
    Kw("fitness"), Kw("sportstudio"), Kw("sport"), Kw("yoga"), Kw("taekwondo")
  ]

  const SporthalleKeywords: seq<Keyword> := [
    Kw("sporthalle"), Kw("sportanlage")
  ]

  const SchwimmbadKeywords: seq<Keyword> := [
    Kw("schwimmbad")
  ]

  const TheaterKeywords: seq<Keyword> := [
    Kw("kultur")
  ]

  const MuseumKeywords: seq<Keyword> := [
    Kw("museum"), Kw("ausstellung")
  ]

  const EinzelhandelKeywords: seq<Keyword> := [
    Kw("handel / dienstleistungen"), Kw("einzelhandel"), Kw("handel"), Kw("buchhandel"),
    Kw("zeitschriftenhandel"), Kw("fotohandel"), Kw("apotheke"), Kw("sanitätshaus"),
    Kw("augenoptiker"), Kw("hörakustik"), Kw("friseur"), Kw("kosmetik"), Kw("wellness"),
    Kw("sporthandel"), Kw("autohaus"), Kw("zentrum"), Kw("store"), Kw("bike"), Kw("handel")
  ]

  const ProduktionKeywords: seq<Keyword> := [
    Kw("produktion"), Kw("maschinenbau"), Kw("anlagenbau"), Kw("werkzeugbau"),
    Kw("metallbearbeitung"), Kw("gerätebau"), Kw("automatisierungstechnik"), Kw("glasherstellung"),
    Kw("glasbearbeitung"), Kw("recycling"), Kw("abfallwirtschaft"), Kw("umwelttechnologie"),
    Kw("industrie 4.0"), Kw("manufacturing"), Kw("produktion"), Kw("industrial"),
    Kw("bauausführungen"), Kw("fertigung"), Kw("systems"), Kw("bauwesen"), Kw("it / medien"),
    Kw("elektronik / elektrotechnik"), Kw("lichttechnik"), Kw("klimatechnik / kältetechnik"),
    Kw("automobil- / verkehrstechnik"), Kw("klimatechnik / kältetechnik"),
    Kw("luftfahrt / raumfahrt")
  ]

  const BueroKeywords: seq<Keyword> := [
    Kw("büro"), Kw("unternehmensberatung"), Kw("wissenschaftliche einrichtungen"),
    Kw("technologieberatung"), Kw("gutachten"), Kw("banken"), Kw("finanzdienstleistungen"),
    Kw("versicherungen"), Kw("rechtsberatung"), Kw("anwälte"), Kw("steuerberatung"),
    Kw("it-dienstleistungen"), Kw("software"), Kw("werbung"), Kw("marketing"),
    Kw("projektentwicklung"), Kw("immobilien"), Kw("bezirksämter"), Kw("verwaltung"), Kw("print"),
    Kw("mail"), Kw("ingenieurdienstleistung"), Kw("medizinische / soziale einrichtungen"),
    Kw("agentur für arbeit"), Kw("jobcenter"), Kw("verein"), Kw("stiftung"), Kw("software"),
    Kw("consulting"), Kw("analytics"), Kw("engineering"), Kw("architekt"), Kw("ingenieure"),
    Kw("planungsbüro"), Kw("allgemeine dienstleistungen"), Kw("energiesysteme, energieversorgung"),
    Kw("bühnentechnik"), Kw("außeruniversitäre institute"), Kw("mobilität / e-mobilität"),
    Kw("erneuerbare energien")
  ]

  const ParkhausKeywords: seq<Keyword> := [
    Kw("parkhaus"), Kw("tiefgarage")
  ]

  /** The keywords of cluster `i`. */
  function ClusterKeywordList(i: nat): seq<Keyword>
    requires i < ClusterCount
  {
    if i == 0 then PflegeheimKeywords
    else if i == 1 then RechenzentrumKeywords
    else if i == 2 then LaborKeywords
    else if i == 3 then KrankenhausKeywords
    else if i == 4 then LagerhalleKeywords
    else if i == 5 then BibliothekKeywords
    else if i == 6 then SchuleKeywords
    else if i == 7 then KindergartenKeywords
    else if i == 8 then SupermarktKeywords
    else if i == 9 then EinkaufszentrumKeywords
    else if i == 10 then HotelKeywords
    else if i == 11 then RestaurantKeywords
    else if i == 12 then KantineKeywords
    else if i == 13 then FitnesscenterKeywords
    else if i == 14 then SporthalleKeywords
    else if i == 15 then SchwimmbadKeywords
    else if i == 16 then TheaterKeywords
    else if i == 17 then MuseumKeywords
    else if i == 18 then EinzelhandelKeywords
    else if i == 19 then ProduktionKeywords
    else if i == 20 then BueroKeywords
    else ParkhausKeywords
  }

  /** `cluster_keywords`: each name with its keywords. */
  function ClusterKeywords(): (table: Table)
    ensures |table| == ClusterCount
  {
    seq(ClusterCount, i requires 0 <= i < ClusterCount => (ClusterName(i), ClusterKeywordList(i)))
  }

  /** Positions of the clusters the properties below talk about. */
  const EinkaufszentrumIndex := 9
  const FitnesscenterIndex := 13
  const SporthalleIndex := 14
  const EinzelhandelIndex := 18

  /** `assign_cluster(text)` over the script's table. */
  function AssignedCluster(text: string): string {
    Classify(ClusterKeywords(), text)
  }

  /** Entry `i` of the table is cluster `i`'s name with its keywords. */
  lemma ClusterKeywordsAt(i: nat)
    requires i < ClusterCount
    ensures ClusterKeywords()[i].0 == ClusterName(i)
    ensures ClusterKeywords()[i].1 == ClusterKeywordList(i)
  {
  }

  /** No cluster is called "Sonstiges", and the names used below belong to one cluster each (dictionary keys are distinct). */
  lemma ClusterNameFacts(i: nat)
    requires i < ClusterCount
    ensures ClusterName(i) != Fallback
    ensures ClusterName(i) == "Sporthalle" ==> i == SporthalleIndex
    ensures ClusterName(i) == "Einzelhandel" ==> i == EinzelhandelIndex
  {
  }

  /** "Sonstiges" exactly when no keyword of any cluster occurs; in particular for the empty text. */
  lemma AssignedFallback(text: string)
    ensures AssignedCluster(text) == Fallback <==>
            forall i | 0 <= i < |ClusterKeywords()| :: !Hits(ClusterKeywords(), text, i)
    ensures AssignedCluster("") == Fallback
  {
    forall i | 0 <= i < |ClusterKeywords()|
      ensures ClusterKeywords()[i].0 != Fallback
    {
      ClusterKeywordsAt(i);
      ClusterNameFacts(i);
    }
    ClassifyFallback(ClusterKeywords(), text);
    ClassifyEmpty(ClusterKeywords());
  }

  /** "sport" occurs in each keyword of "Sporthalle", and it is a keyword of the earlier "Fitnesscenter". */
  lemma SporthalleImpliesFitness(text: string)
    requires Hits(ClusterKeywords(), text, SporthalleIndex)
    ensures Hits(ClusterKeywords(), text, FitnesscenterIndex)
  {
    ClusterKeywordsAt(SporthalleIndex);
    ClusterKeywordsAt(FitnesscenterIndex);
    var keywords := SporthalleKeywords;
    var j :| 0 <= j < |keywords| && Contains(text, keywords[j]);
    assert keywords[j][..5] == "sport";
    assert OccursAt(keywords[j], "sport", 0);
    ContainsTransitive(text, keywords[j], "sport");
    assert FitnesscenterKeywords[2] == "sport";
  }

  /** So `assign_cluster` never answers "Sporthalle": that value is only ever set by hand. */
  lemma NeverSporthalle(text: string)
    ensures AssignedCluster(text) != "Sporthalle"
  {
    var i := FirstHit(ClusterKeywords(), text, 0);
    if i < |ClusterKeywords()| {
      ClusterKeywordsAt(i);
      ClusterNameFacts(i);
      if ClusterName(i) == "Sporthalle" {
        SporthalleImpliesFitness(text);
        assert false;
      }
    }
  }

  /**
    A text mentioning "einkaufszentrum" never reaches "Einzelhandel" through its keyword "zentrum":
    it gets "Einkaufszentrum", or an earlier cluster that the text also hits.
   */
  lemma EinkaufszentrumBeforeEinzelhandel(text: string)
    requires Contains(text, "einkaufszentrum")
    ensures AssignedCluster(text) != "Einzelhandel"
    ensures (forall p | 0 <= p < EinkaufszentrumIndex :: !Hits(ClusterKeywords(), text, p)) ==>
            AssignedCluster(text) == "Einkaufszentrum"
  {
    ClusterKeywordsAt(EinkaufszentrumIndex);
    assert EinkaufszentrumKeywords[0] == "einkaufszentrum";
    assert Hits(ClusterKeywords(), text, EinkaufszentrumIndex);
    var i := FirstHit(ClusterKeywords(), text, 0);
    assert i <= EinkaufszentrumIndex;
    ClusterKeywordsAt(i);
    ClusterNameFacts(i);
    if forall p | 0 <= p < EinkaufszentrumIndex :: !Hits(ClusterKeywords(), text, p) {
      FirstHitAt(ClusterKeywords(), text, 0, EinkaufszentrumIndex);
    }
  }
}
