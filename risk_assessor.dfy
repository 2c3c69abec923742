/**
 * The severity prioritiser: findings are ordered by a fixed rank table
 * (Critical, High, Medium, Low, then every other score), and the order is
 * stable, so findings of equal rank keep their input order.
 *
 * The source sorts with a stable library sort keyed on the rank. The model
 * computes the same sequence with a stable insertion sort and proves that
 * its result is the only sequence that is sorted by rank and keeps, for
 * every rank, the input's subsequence of findings of that rank.
 */
module RiskAssessor {

  /** A persisted compliance finding. The id and the timestamp are carried
      as opaque payload: only the score takes part in the ordering. */
  datatype Finding = Finding(
    id: int,
    refinedRiskScore: string,
    nlSummary: string,
    remediationPlaybookRef: string,
    vanguardTimestamp: string)

  /** The rank table; a lower rank is surfaced first. */
  const SeverityOrder: map<string, nat> :=
    map["Critical" := 0, "High" := 1, "Medium" := 2, "Low" := 3]

  /** The rank of any score missing from the table. */
  const UnrankedRank: nat := 4

  /** The table lookup with its default. Matching is exact: no case folding. */
  function Rank(score: string): (r: nat)
    ensures r <= UnrankedRank
  {
    if score in SeverityOrder then SeverityOrder[score] else UnrankedRank
  }

  /** The ranks are exactly the table's, and every other score is unranked. */
  lemma RankTable(score: string)
    ensures Rank(score) == 0 <==> score == "Critical"
    ensures Rank(score) == 1 <==> score == "High"
    ensures Rank(score) == 2 <==> score == "Medium"
    ensures Rank(score) == 3 <==> score == "Low"
    ensures Rank(score) == UnrankedRank <==> score !in SeverityOrder
  {
  }

  function RankOf(f: Finding): nat
  {
    Rank(f.refinedRiskScore)
  }

  /** Non-decreasing in rank. */
  ghost predicate Sorted(s: seq<Finding>)
  {
    forall i, j :: 0 <= i < j < |s| ==> RankOf(s[i]) <= RankOf(s[j])
  }

  /** The subsequence of the findings of rank `k`, in their order in `s`. */
  function OfRank(s: seq<Finding>, k: nat): (r: seq<Finding>)
    ensures forall i :: 0 <= i < |r| ==> RankOf(r[i]) == k
  {
    if s == [] then []
    else (if RankOf(s[0]) == k then [s[0]] else []) + OfRank(s[1..], k)
  }

  /** Puts `x` in front of the first element whose rank is not smaller. */
  function Insert(x: Finding, s: seq<Finding>): (r: seq<Finding>)
    ensures multiset(r) == multiset(s) + multiset{x}
    ensures |r| == |s| + 1
    ensures r[0] == x || (s != [] && r[0] == s[0])
  {
    if s == [] || RankOf(x) <= RankOf(s[0]) then [x] + s
    else
      var rest := Insert(x, s[1..]);
      assert s == [s[0]] + s[1..];
      [s[0]] + rest
  }

  /** The prioritised order of `findings` (a stable sort by rank). */
  function Prioritize(findings: seq<Finding>): (r: seq<Finding>)
    ensures multiset(r) == multiset(findings)
    ensures |r| == |findings|
    ensures Sorted(r)
  {
    if findings == [] then []
    else
      assert findings == [findings[0]] + findings[1..];
      var rest := Prioritize(findings[1..]);
      InsertSorted(findings[0], rest);
      Insert(findings[0], rest)
  }

  lemma {:induction false} InsertSorted(x: Finding, s: seq<Finding>)
    requires Sorted(s)
    ensures Sorted(Insert(x, s))
  {
    if s == [] || RankOf(x) <= RankOf(s[0]) {
    } else {
      var rest := Insert(x, s[1..]);
      InsertSorted(x, s[1..]);
      assert RankOf(s[0]) <= RankOf(rest[0]);
      assert Insert(x, s) == [s[0]] + rest;
    }
  }

  /** The reference order: all Critical findings, then High, Medium, Low and
      the unranked ones, each group in input order. */
  function Grouped(findings: seq<Finding>): seq<Finding>
  {
    GroupsFrom(findings, 0)
  }

  function GroupsFrom(s: seq<Finding>, k: nat): seq<Finding>
    decreases UnrankedRank + 1 - k
  {
    if k > UnrankedRank then [] else OfRank(s, k) + GroupsFrom(s, k + 1)
  }

  // ---------------------------------------------------------------------
  // Facts about the per-rank subsequences
  // ---------------------------------------------------------------------

  lemma {:induction false} OfRankAppend(a: seq<Finding>, b: seq<Finding>, k: nat)
    ensures OfRank(a + b, k) == OfRank(a, k) + OfRank(b, k)
  {
    if a == [] {
      assert a + b == b;
    } else {
      assert (a + b)[1..] == a[1..] + b;
      OfRankAppend(a[1..], b, k);
    }
  }

  lemma {:induction false} OfRankAbsent(s: seq<Finding>, k: nat)
    requires forall i :: 0 <= i < |s| ==> RankOf(s[i]) != k
    ensures OfRank(s, k) == []
  {
    if s != [] {
      OfRankAbsent(s[1..], k);
    }
  }

  lemma {:induction false} OfRankOfRank(s: seq<Finding>, j: nat, k: nat)
    ensures OfRank(OfRank(s, j), k) == if j == k then OfRank(s, j) else []
  {
    if j == k {
      OfRankIdentity(OfRank(s, j), k);
    } else {
      OfRankAbsent(OfRank(s, j), k);
    }
  }

  lemma {:induction false} OfRankIdentity(s: seq<Finding>, k: nat)
    requires forall i :: 0 <= i < |s| ==> RankOf(s[i]) == k
    ensures OfRank(s, k) == s
  {
    if s != [] {
      OfRankIdentity(s[1..], k);
      assert s == [s[0]] + s[1..];
    }
  }

  // ---------------------------------------------------------------------
  // The reference order is sorted and keeps every rank's subsequence
  // ---------------------------------------------------------------------

  lemma {:induction false} GroupsFromShape(s: seq<Finding>, k: nat)
    ensures Sorted(GroupsFrom(s, k))
    ensures forall i :: 0 <= i < |GroupsFrom(s, k)| ==> RankOf(GroupsFrom(s, k)[i]) >= k
    decreases UnrankedRank + 1 - k
  {
    if k <= UnrankedRank {
      GroupsFromShape(s, k + 1);
    }
  }

  lemma {:induction false} GroupsFromOfRank(s: seq<Finding>, k: nat, j: nat)
    requires j <= UnrankedRank
    ensures OfRank(GroupsFrom(s, k), j) == if k <= j then OfRank(s, j) else []
    decreases UnrankedRank + 1 - k
  {
    if k <= UnrankedRank {
      var g := GroupsFrom(s, k + 1);
      assert GroupsFrom(s, k) == OfRank(s, k) + g;
      GroupsFromOfRank(s, k + 1, j);
      OfRankAppend(OfRank(s, k), g, j);
      OfRankOfRank(s, k, j);
      if k == j {
        assert OfRank(g, j) == [];
      } else {
        assert OfRank(OfRank(s, k), j) == [];
      }
    }
  }

  /** Stability of the reference order: each rank's subsequence is the input's. */
  lemma GroupedKeepsRanks(s: seq<Finding>, k: nat)
    ensures OfRank(Grouped(s), k) == OfRank(s, k)
  {
    if k <= UnrankedRank {
      GroupsFromOfRank(s, 0, k);
    } else {
      OfRankAbsent(s, k);
      OfRankAbsent(Grouped(s), k);
    }
  }

  lemma OfRankHead(s: seq<Finding>)
    ensures s != [] ==> OfRank(s, RankOf(s[0])) != [] && OfRank(s, RankOf(s[0]))[0] == s[0]
  {
  }

  lemma {:induction false} OfRankMember(s: seq<Finding>, k: nat)
    requires OfRank(s, k) != []
    ensures exists i :: 0 <= i < |s| && RankOf(s[i]) == k
  {
    if RankOf(s[0]) != k {
      OfRankMember(s[1..], k);
      var i :| 0 <= i < |s[1..]| && RankOf(s[1..][i]) == k;
      assert RankOf(s[i + 1]) == k;
    }
  }

  /** Two sorted sequences with the same per-rank subsequences start with the
      same finding. */
  lemma SortedSameHead(a: seq<Finding>, b: seq<Finding>)
    requires Sorted(a) && Sorted(b) && a != [] && b != []
    requires forall k: nat :: k <= UnrankedRank ==> OfRank(a, k) == OfRank(b, k)
    ensures a[0] == b[0]
  {
    OfRankHead(a);
    OfRankHead(b);
    var r := RankOf(a[0]);
    OfRankMember(b, r);
    OfRankMember(a, RankOf(b[0]));
    assert RankOf(b[0]) == r;
  }

  /** The per-rank subsequence of a tail, read off that of the whole. */
  lemma OfRankTail(s: seq<Finding>, k: nat)
    requires s != []
    ensures OfRank(s[1..], k) == if RankOf(s[0]) == k then OfRank(s, k)[1..] else OfRank(s, k)
  {
    var t := OfRank(s[1..], k);
    if RankOf(s[0]) == k {
      assert OfRank(s, k) == [s[0]] + t;
      assert ([s[0]] + t)[1..] == t;
    } else {
      assert OfRank(s, k) == [] + t;
    }
  }

  /** Dropping an equal first finding keeps the per-rank subsequences equal. */
  lemma SameTailRanks(a: seq<Finding>, b: seq<Finding>)
    requires a != [] && b != [] && a[0] == b[0]
    requires forall k: nat :: k <= UnrankedRank ==> OfRank(a, k) == OfRank(b, k)
    ensures forall k: nat :: k <= UnrankedRank ==> OfRank(a[1..], k) == OfRank(b[1..], k)
  {
    forall k: nat | k <= UnrankedRank
      ensures OfRank(a[1..], k) == OfRank(b[1..], k)
    {
      OfRankTail(a, k);
      OfRankTail(b, k);
    }
  }

  /** A sequence whose per-rank subsequences are all empty is empty. */
  lemma NoRanksEmpty(a: seq<Finding>)
    requires forall k: nat :: k <= UnrankedRank ==> OfRank(a, k) == []
    ensures a == []
  {
    OfRankHead(a);
  }

  /** A sequence sorted by rank is determined by its per-rank subsequences. */
  lemma {:induction false} SortedUnique(a: seq<Finding>, b: seq<Finding>)
    requires Sorted(a) && Sorted(b)
    requires forall k: nat :: k <= UnrankedRank ==> OfRank(a, k) == OfRank(b, k)
    ensures a == b
    decreases |a| + |b|
  {
    if a == [] {
      NoRanksEmpty(b);
    } else if b == [] {
      NoRanksEmpty(a);
    } else {
      SortedSameHead(a, b);
      SameTailRanks(a, b);
      SortedUnique(a[1..], b[1..]);
      assert a == [a[0]] + a[1..] && b == [b[0]] + b[1..];
    }
  }

  // ---------------------------------------------------------------------
  // Properties of the prioritiser
  // ---------------------------------------------------------------------

  lemma {:induction false} InsertOfRank(x: Finding, s: seq<Finding>, k: nat)
    ensures OfRank(Insert(x, s), k) == (if RankOf(x) == k then [x] else []) + OfRank(s, k)
  {
    if s == [] || RankOf(x) <= RankOf(s[0]) {
      assert ([x] + s)[1..] == s;
    } else {
      var rest := Insert(x, s[1..]);
      InsertOfRank(x, s[1..], k);
      assert Insert(x, s) == [s[0]] + rest;
      assert ([s[0]] + rest)[1..] == rest;
    }
  }

  /** Stability: the findings of each rank keep their relative input order. */
  lemma {:induction false} PrioritizeStable(findings: seq<Finding>, k: nat)
    ensures OfRank(Prioritize(findings), k) == OfRank(findings, k)
  {
    if findings != [] {
      PrioritizeStable(findings[1..], k);
      InsertOfRank(findings[0], Prioritize(findings[1..]), k);
    }
  }

  /** The prioritised order is exactly Critical, High, Medium, Low and then
      everything else, each group in input order. */
  lemma PrioritizeIsGrouped(findings: seq<Finding>)
    ensures Prioritize(findings) == Grouped(findings)
  {
    GroupsFromShape(findings, 0);
    forall k: nat | k <= UnrankedRank
      ensures OfRank(Prioritize(findings), k) == OfRank(Grouped(findings), k)
    {
      PrioritizeStable(findings, k);
      GroupedKeepsRanks(findings, k);
    }
    SortedUnique(Prioritize(findings), Grouped(findings));
  }

  /** Any stable sort by rank gives the prioritiser's result: a sequence
      sorted by rank whose per-rank subsequences are the input's is it. */
  lemma StableSortIsPrioritize(findings: seq<Finding>, r: seq<Finding>)
    requires Sorted(r)
    requires forall k: nat :: k <= UnrankedRank ==> OfRank(r, k) == OfRank(findings, k)
    ensures r == Prioritize(findings)
  {
    forall k: nat | k <= UnrankedRank
      ensures OfRank(r, k) == OfRank(Prioritize(findings), k)
    {
      PrioritizeStable(findings, k);
    }
    SortedUnique(r, Prioritize(findings));
  }

  /** An input already in rank order (in particular one whose findings all
      share a rank) comes back unchanged, so prioritising is idempotent. */
  lemma PrioritizeSortedUnchanged(findings: seq<Finding>)
    requires Sorted(findings)
    ensures Prioritize(findings) == findings
  {
    StableSortIsPrioritize(findings, findings);
  }

  /** Findings that all share one rank come back unchanged. */
  lemma SameRankUnchanged(findings: seq<Finding>, k: nat)
    requires forall i :: 0 <= i < |findings| ==> RankOf(findings[i]) == k
    ensures Prioritize(findings) == findings
  {
    PrioritizeSortedUnchanged(findings);
  }

  lemma PrioritizeIdempotent(findings: seq<Finding>)
    ensures Prioritize(Prioritize(findings)) == Prioritize(findings)
  {
    PrioritizeSortedUnchanged(Prioritize(findings));
  }

  /** Findings whose score is not one of the four known levels come after
      every finding whose score is. */
  lemma UnrankedLast(findings: seq<Finding>, i: nat, j: nat)
    requires i < j < |Prioritize(findings)|
    requires Prioritize(findings)[i].refinedRiskScore !in SeverityOrder
    ensures Prioritize(findings)[j].refinedRiskScore !in SeverityOrder
  {
    RankTable(Prioritize(findings)[i].refinedRiskScore);
    RankTable(Prioritize(findings)[j].refinedRiskScore);
  }

  /** Case variants are not recognised. */
  lemma CaseVariantsUnranked()
    ensures Rank("CRITICAL") == UnrankedRank
    ensures Rank("medium") == UnrankedRank
  {
  }
}
