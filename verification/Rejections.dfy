/** What the filtering steps keep account of: the pull requests kept and the rejections recorded. */
module Rejections {
  import opened PullRequests

  datatype RejectionReason = Draft | MergeConflict | CIFailure | Bot | SupersededByCollapse | NotSelectedByStrategy

  datatype Rejection = Rejection(number: int, reason: RejectionReason)

  function PRNumbers(prs: seq<PR>): (numbers: seq<int>)
    ensures |numbers| == |prs| && forall i :: 0 <= i < |prs| ==> numbers[i] == prs[i].number
  {
    seq(|prs|, i requires 0 <= i < |prs| => prs[i].number)
  }

  function RejectionNumbers(rejections: seq<Rejection>): (numbers: seq<int>)
    ensures |numbers| == |rejections| && forall i :: 0 <= i < |rejections| ==> numbers[i] == rejections[i].number
  {
    seq(|rejections|, i requires 0 <= i < |rejections| => rejections[i].number)
  }

  /** Everything is either kept or rejected, by number and with multiplicity. */
  ghost predicate Conserved(prs: seq<PR>, kept: seq<PR>, rejections: seq<Rejection>)
  {
    multiset(PRNumbers(kept)) + multiset(RejectionNumbers(rejections)) == multiset(PRNumbers(prs))
  }

  lemma ConservedStep(prs: seq<PR>, pr: PR, kept: seq<PR>, keep: PR, rejections: seq<Rejection>, reject: Rejection)
    requires Conserved(prs, kept, rejections) && reject.number == keep.number == pr.number
    ensures Conserved(prs + [pr], kept + [keep], rejections)
    ensures Conserved(prs + [pr], kept, rejections + [reject])
  {
    assert PRNumbers(prs + [pr]) == PRNumbers(prs) + [pr.number];
    assert PRNumbers(kept + [keep]) == PRNumbers(kept) + [keep.number];
    assert RejectionNumbers(rejections + [reject]) == RejectionNumbers(rejections) + [reject.number];
  }
}
