/**
  `assign_cluster` of assign_company_to_cluster.py: the first cluster, in table order, one of
  whose keywords occurs in the text.

  The search is stated for any table, so that its proofs do not depend on the table's contents;
  `ClusterTable.ClusterKeywords()` is the one table the script uses.
 */
module ClusterAssignment {
  import opened Text

  /** A keyword: `kw in text` with an empty `kw` would hold for every text, and the table has none. */
  type Keyword = kw: string | kw != [] witness "x"

  /** A keyword written in the table. */
  function Kw(s: string): Keyword
    requires s != []
  {
    s
  }

  /** An ordered keyword table: cluster names with their keywords, highest priority first. */
  type Table = seq<(string, seq<Keyword>)>

  /** The answer when no keyword occurs. */
  const Fallback := "Sonstiges"

  // ---------------------------------------------------------------------------
  // The first-match search
  // ---------------------------------------------------------------------------

  /** Some keyword of cluster `i` occurs in `text` (`kw in text` for some `kw`). */
  predicate Hits(table: Table, text: string, i: nat)
    requires i < |table|
  {
    exists j | 0 <= j < |table[i].1| :: Contains(text, table[i].1[j])
  }

  /** The first cluster at or after `from` that `text` hits, or `|table|` if there is none. */
  function FirstHit(table: Table, text: string, from: nat): (r: nat)
    requires from <= |table|
    ensures from <= r <= |table|
    ensures r < |table| ==> Hits(table, text, r)
    ensures forall p | from <= p < r :: !Hits(table, text, p)
    decreases |table| - from
  {
    if from == |table| || Hits(table, text, from) then from else FirstHit(table, text, from + 1)
  }

  /** What `assign_cluster(text)` returns: the first hit cluster's name, else "Sonstiges". */
  function Classify(table: Table, text: string): (cluster: string)
    ensures cluster == Fallback || exists i | 0 <= i < |table| :: cluster == table[i].0
  {
    var i := FirstHit(table, text, 0);
    if i < |table| then table[i].0 else Fallback
  }

  /** `FirstHit` is the unique index with its two properties. */
  lemma {:induction false} FirstHitAt(table: Table, text: string, from: nat, i: nat)
    requires from <= i <= |table|
    requires forall p | from <= p < i :: !Hits(table, text, p)
    requires i == |table| || Hits(table, text, i)
    ensures FirstHit(table, text, from) == i
    decreases i - from
  {
    if from < i {
      FirstHitAt(table, text, from + 1, i);
    }
  }

  /** `assign_cluster`: the nested search over the table with an early return. */
  method AssignCluster(table: Table, text: string) returns (cluster: string)
    ensures cluster == Classify(table, text)
  {
    var i := 0;
    while i < |table|
      invariant 0 <= i <= |table|
      invariant forall p | 0 <= p < i :: !Hits(table, text, p)
    {
      var keywords := table[i].1;
      var j := 0;
      while j < |keywords|
        invariant 0 <= j <= |keywords|
        invariant forall q | 0 <= q < j :: !Contains(text, keywords[q])
      {
        if Contains(text, keywords[j]) {
          FirstHitAt(table, text, 0, i);
          return table[i].0;
        }
        j := j + 1;
      }
      i := i + 1;
    }
    FirstHitAt(table, text, 0, i);
    return Fallback;
  }

  /** The result is the name of the first cluster, in table order, that has a keyword occurring in the text. */
  lemma ClassifyIsFirstMatch(table: Table, text: string, i: nat)
    requires i < |table| && Hits(table, text, i)
    requires forall p | 0 <= p < i :: !Hits(table, text, p)
    ensures Classify(table, text) == table[i].0
  {
    FirstHitAt(table, text, 0, i);
  }

  /** With no cluster named "Sonstiges", that answer comes exactly when no keyword of any cluster occurs. */
  lemma ClassifyFallback(table: Table, text: string)
    requires forall i | 0 <= i < |table| :: table[i].0 != Fallback
    ensures Classify(table, text) == Fallback <==> forall i | 0 <= i < |table| :: !Hits(table, text, i)
  {
  }

  /** Keywords are never empty, so the empty text hits nothing. */
  lemma ClassifyEmpty(table: Table)
    ensures FirstHit(table, "", 0) == |table|
  {
    forall i | 0 <= i < |table|
      ensures !Hits(table, "", i)
    {
      forall j | 0 <= j < |table[i].1|
        ensures !Contains("", table[i].1[j])
      {
        NothingNonEmptyInEmpty(table[i].1[j]);
      }
    }
    FirstHitAt(table, "", 0, |table|);
  }
}
