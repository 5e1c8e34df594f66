/**
  The DataFrame steps of assign_company_to_cluster.py around `assign_cluster`: the lower-cased helper
  column, the Cluster column, the two manual overrides, and dropping the helper column.
 */
module CompanyClusters {
  import opened Frames
  import opened ClusterAssignment

  const SectorColumn := "Branchenzweig"
  const NormColumn := "Branchenzweig_norm"
  const ClusterColumn := "Cluster"
  const NameColumn := "Name"

  /** The two companies whose cluster is set by hand, and the clusters they get. */
  const SportsClub := "Hochschulsport Adlershof"
  const SportsClubCluster := "Sporthalle"
  const PhotonicsCompany := "Alternate Photonics GmbH"
  const PhotonicsCompanyCluster := "Produktion"

  // ---------------------------------------------------------------------------
  // Lower case
  // ---------------------------------------------------------------------------

  /** A capital letter that `str.lower` changes, within ASCII and Latin-1: A-Z and À-Þ except ×. */
  predicate IsCapital(c: char) {
    ('A' <= c <= 'Z') || ('À' <= c <= 'Þ' && c != '×')
  }

  /** `str.lower` on one character of ASCII or Latin-1: a capital moves to its small letter, 32 places on. */
  function LowerChar(c: char): char {
    if IsCapital(c) then (c as int + 32) as char else c
  }

  /** `str.lower`, character by character. */
  function Lower(s: string): string {
    seq(|s|, i requires 0 <= i < |s| => LowerChar(s[i]))
  }

  /** Lower case leaves no capital, keeps the length and every non-capital, and is idempotent. */
  lemma LowerIsLowerCase(s: string)
    ensures |Lower(s)| == |s|
    ensures forall i | 0 <= i < |s| :: !IsCapital(Lower(s)[i])
    ensures forall i | 0 <= i < |s| && !IsCapital(s[i]) :: Lower(s)[i] == s[i]
    ensures Lower(Lower(s)) == Lower(s)
  {
    assert forall i | 0 <= i < |s| :: Lower(Lower(s))[i] == Lower(s)[i];
  }

  // ---------------------------------------------------------------------------
  // The steps, on a list of rows
  // ---------------------------------------------------------------------------

  /** `df["Branchenzweig"].str.lower().fillna("")` on one row: a missing sector reads as "". */
  function NormalizedSector(row: Row): string {
    if SectorColumn in row then Lower(row[SectorColumn]) else ""
  }

  /** `df["Name"] == name` on one row: false for a missing name. */
  predicate NameIs(row: Row, name: string) {
    NameColumn in row && row[NameColumn] == name
  }

  /** Line 20: every row gets the helper column, holding its lower-cased sector, and keeps every other column. */
  function WithNormalizedSector(rows: seq<Row>): (r: seq<Row>)
    ensures |r| == |rows|
    ensures forall k | 0 <= k < |r| :: NormColumn in r[k] && r[k][NormColumn] == NormalizedSector(rows[k])
    ensures forall k | 0 <= k < |r| && SectorColumn !in rows[k] :: r[k][NormColumn] == ""
    ensures forall k | 0 <= k < |r| :: r[k] - {NormColumn} == rows[k] - {NormColumn}
  {
    seq(|rows|, k requires 0 <= k < |rows| => rows[k][NormColumn := NormalizedSector(rows[k])])
  }

  /** Line 199: every row gets the cluster of its helper column (which must exist) in `table`, and keeps every other column. */
  function WithClusters(rows: seq<Row>, table: Table): (r: seq<Row>)
    requires forall k | 0 <= k < |rows| :: NormColumn in rows[k]
    ensures |r| == |rows|
    ensures forall k | 0 <= k < |r| ::
              ClusterColumn in r[k] && r[k][ClusterColumn] == Classify(table, rows[k][NormColumn])
    ensures forall k | 0 <= k < |r| :: r[k] - {ClusterColumn} == rows[k] - {ClusterColumn}
  {
    seq(|rows|, k requires 0 <= k < |rows| =>
      rows[k][ClusterColumn := Classify(table, rows[k][NormColumn])])
  }

  /** Lines 202-203: `df.loc[df["Name"] == name, "Cluster"] = cluster`. */
  function Overridden(rows: seq<Row>, name: string, cluster: string): (r: seq<Row>)
    ensures |r| == |rows|
    ensures forall k | 0 <= k < |rows| && !NameIs(rows[k], name) :: r[k] == rows[k]
    ensures forall k | 0 <= k < |rows| && NameIs(rows[k], name) ::
              ClusterColumn in r[k] && r[k][ClusterColumn] == cluster &&
              r[k] - {ClusterColumn} == rows[k] - {ClusterColumn}
  {
    seq(|rows|, k requires 0 <= k < |rows| =>
      if NameIs(rows[k], name) then rows[k][ClusterColumn := cluster] else rows[k])
  }

  /** Line 206: the helper column is dropped again, and every other column stays as it was. */
  function WithoutNormalizedSector(rows: seq<Row>): (r: seq<Row>)
    ensures |r| == |rows|
    ensures forall k | 0 <= k < |r| :: NormColumn !in r[k] && r[k].Keys == rows[k].Keys - {NormColumn}
    ensures forall k, c | 0 <= k < |r| && c in r[k] :: r[k][c] == rows[k][c]
  {
    seq(|rows|, k requires 0 <= k < |rows| => rows[k] - {NormColumn})
  }

  /** The whole script from the frame it reads to the frame it writes, with `table` as `cluster_keywords`. */
  function ClusteredCompanies(companies: seq<Row>, table: Table): seq<Row> {
    var clustered := WithClusters(WithNormalizedSector(companies), table);
    var overridden := Overridden(Overridden(clustered, SportsClub, SportsClubCluster),
                                 PhotonicsCompany, PhotonicsCompanyCluster);
    WithoutNormalizedSector(overridden)
  }

  /** The cluster the script gives one company. */
  function CompanyCluster(company: Row, table: Table): string {
    if NameIs(company, PhotonicsCompany) then PhotonicsCompanyCluster
    else if NameIs(company, SportsClub) then SportsClubCluster
    else Classify(table, NormalizedSector(company))
  }

  // ---------------------------------------------------------------------------
  // The frame, changed in place
  // ---------------------------------------------------------------------------

  /** The DataFrame `df` of the script, whose columns the steps add, overwrite and drop in place. */
  class CompanyFrame {
    var rows: seq<Row>

    /** `pd.read_csv`, with the file's rows given. */
    constructor (companies: seq<Row>)
      ensures rows == companies
    {
      rows := companies;
    }

    method AddNormalizedSector()
      modifies this
      ensures rows == WithNormalizedSector(old(rows))
    {
      rows := WithNormalizedSector(rows);
    }

    /** `apply(assign_cluster)`: one call of the search in `table` per row, in order. */
    method AssignClusters(table: Table)
      modifies this
      requires forall k | 0 <= k < |rows| :: NormColumn in rows[k]
      ensures rows == WithClusters(old(rows), table)
    {
      var read := rows;
      var withClusters: seq<Row> := [];
      var i := 0;
      while i < |read|
        invariant 0 <= i <= |read|
        invariant |withClusters| == i
        invariant forall k | 0 <= k < i ::
                    withClusters[k] == read[k][ClusterColumn := Classify(table, read[k][NormColumn])]
      {
        var cluster := AssignCluster(table, read[i][NormColumn]);
        withClusters := withClusters + [read[i][ClusterColumn := cluster]];
        i := i + 1;
      }
      rows := withClusters;
    }

    method OverrideCluster(name: string, cluster: string)
      modifies this
      ensures rows == Overridden(old(rows), name, cluster)
    {
      rows := Overridden(rows, name, cluster);
    }

    method DropNormalizedSector()
      modifies this
      ensures rows == WithoutNormalizedSector(old(rows))
    {
      rows := WithoutNormalizedSector(rows);
    }
  }

  // ---------------------------------------------------------------------------
  // What the script's output is
  // ---------------------------------------------------------------------------

  /**
    Every company keeps its row, in order; the row loses the helper column, gains Cluster, and keeps
    every other column as read; Cluster is the override for the two named companies and the keyword
    search on the lower-cased sector for all others.
   */
  lemma ClusteredCompaniesRows(companies: seq<Row>, table: Table)
    ensures |ClusteredCompanies(companies, table)| == |companies|
    ensures forall k | 0 <= k < |companies| ::
              ClusteredCompanies(companies, table)[k].Keys == companies[k].Keys - {NormColumn} + {ClusterColumn}
    ensures forall k, c | 0 <= k < |companies| && c in companies[k] && c != NormColumn && c != ClusterColumn ::
              ClusteredCompanies(companies, table)[k][c] == companies[k][c]
    ensures forall k | 0 <= k < |companies| ::
              ClusteredCompanies(companies, table)[k][ClusterColumn] == CompanyCluster(companies[k], table)
  {
    var normalized := WithNormalizedSector(companies);
    var clustered := WithClusters(normalized, table);
    var first := Overridden(clustered, SportsClub, SportsClubCluster);
    var second := Overridden(first, PhotonicsCompany, PhotonicsCompanyCluster);
    var result := WithoutNormalizedSector(second);
    assert result == ClusteredCompanies(companies, table);
    forall k | 0 <= k < |companies|
      ensures result[k] == ClusteredRow(companies[k], table)
    {
      RowAt(companies, table, k, normalized, clustered, first, second, result);
    }
  }

  /** One company's output row, written out. */
  function ClusteredRow(company: Row, table: Table): Row {
    (company - {NormColumn})[ClusterColumn := CompanyCluster(company, table)]
  }

  /** The five steps on row `k`. */
  lemma RowAt(companies: seq<Row>, table: Table, k: nat, normalized: seq<Row>, clustered: seq<Row>,
              first: seq<Row>, second: seq<Row>, result: seq<Row>)
    requires k < |companies|
    requires normalized == WithNormalizedSector(companies)
    requires clustered == WithClusters(normalized, table)
    requires first == Overridden(clustered, SportsClub, SportsClubCluster)
    requires second == Overridden(first, PhotonicsCompany, PhotonicsCompanyCluster)
    requires result == WithoutNormalizedSector(second)
    ensures result[k] == ClusteredRow(companies[k], table)
  {
    var company := companies[k];
    var cluster := CompanyCluster(company, table);
    assert normalized[k] == company[NormColumn := NormalizedSector(company)];
    assert clustered[k] == normalized[k][ClusterColumn := Classify(table, NormalizedSector(company))];
    assert NameIs(clustered[k], SportsClub) == NameIs(company, SportsClub);
    assert NameIs(first[k], PhotonicsCompany) == NameIs(company, PhotonicsCompany);
    assert second[k] == (company[NormColumn := NormalizedSector(company)])[ClusterColumn := cluster];
  }
}

/** assign_company_to_cluster.py as a whole: the DataFrame steps with the script's own table. */
module ClusterScript {
  import opened Frames
  import opened ClusterAssignment
  import opened ClusterTable
  import opened CompanyClusters

  /** The script: read, add the helper column, cluster, override twice, drop the helper column. */
  method ClusterCompanies(companies: seq<Row>) returns (result: seq<Row>)
    ensures result == ClusteredCompanies(companies, ClusterKeywords())
  {
    var frame := new CompanyFrame(companies);
    frame.AddNormalizedSector();
    frame.AssignClusters(ClusterKeywords());
    frame.OverrideCluster(SportsClub, SportsClubCluster);
    frame.OverrideCluster(PhotonicsCompany, PhotonicsCompanyCluster);
    frame.DropNormalizedSector();
    result := frame.rows;
  }

  /** With the script's table, "Sporthalle" is in the Cluster column exactly for the rows named "Hochschulsport Adlershof". */
  lemma SporthalleOnlyByHand(companies: seq<Row>)
    ensures forall k | 0 <= k < |companies| ::
              ClusteredCompanies(companies, ClusterKeywords())[k][ClusterColumn] == SportsClubCluster <==>
              NameIs(companies[k], SportsClub)
  {
    ClusteredCompaniesRows(companies, ClusterKeywords());
    forall k | 0 <= k < |companies|
      ensures CompanyCluster(companies[k], ClusterKeywords()) == SportsClubCluster <==> NameIs(companies[k], SportsClub)
    {
      NeverSporthalle(NormalizedSector(companies[k]));
    }
  }
}
