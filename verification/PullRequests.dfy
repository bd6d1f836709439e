/** Pull requests (internal/types, PR), with the fields the modelled code reads or writes. */
module PullRequests {
  import opened Sorting

  datatype PR = PR(
    number: int,
    title: string,
    clusterId: string,
    ciStatus: string,
    baseBranch: string,
    headBranch: string,
    files: seq<string>,
    mergeable: string,
    isDraft: bool,
    isBot: bool,
    isCollapsedCanonical: bool,
    supersededPRs: seq<int>)

  /** The standing assumption on one input: no two pull requests share a number. */
  ghost predicate DistinctNumbers(prs: seq<PR>)
  {
    forall i, j :: 0 <= i < j < |prs| ==> prs[i].number != prs[j].number
  }

  predicate ByNumber(a: PR, b: PR)
  {
    a.number < b.number
  }

  /** The clone sorted by number with which Build, Update and ExecuteSharded start. */
  function SortedByNumber(prs: seq<PR>): seq<PR>
  {
    Sort(ByNumber, prs)
  }

  lemma SortedByNumberFacts(prs: seq<PR>)
    requires DistinctNumbers(prs)
    ensures |SortedByNumber(prs)| == |prs|
    ensures forall x :: x in SortedByNumber(prs) <==> x in prs
    ensures SortedBy(ByNumber, SortedByNumber(prs))
    ensures DistinctNumbers(SortedByNumber(prs))
  {
    assert StrictOrder(ByNumber);
    assert TotalOn(ByNumber, prs);
    SortSorted(ByNumber, prs);
    var s := SortedByNumber(prs);
    forall i, j | 0 <= i < j < |s| ensures s[i].number != s[j].number {
      assert ByNumber(s[i], s[j]);
    }
  }

  /** Reordering the input does not change the sorted clone. */
  lemma SortedByNumberStable(a: seq<PR>, b: seq<PR>)
    requires DistinctNumbers(a) && DistinctNumbers(b)
    requires forall x :: x in a <==> x in b
    ensures SortedByNumber(a) == SortedByNumber(b)
  {
    SortedByNumberFacts(a);
    SortedByNumberFacts(b);
    SortedUnique(ByNumber, SortedByNumber(a), SortedByNumber(b));
  }
}
