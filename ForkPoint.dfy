/**
 * `getForkPoint` (index.js:152-174): the commit whose stored report is the
 * baseline for a pull request, taken from the compare response of
 * `<base.ref>...<head.ref>`. When the base branch's tip is a report commit
 * (its message is the one `commitReport` uses), the merge base's first parent
 * is taken instead of the merge base.
 */
module ForkPoint {
  import opened Wrappers
  import opened PullRequests

  /** The commit message `commitReport` writes (index.js:117) and `getForkPoint` tests for. */
  const ReportCommitMessage: string := "Add power report"

  datatype Commit = Commit(sha: string, parents: seq<string>)

  /** The fields of the compare response the action reads. */
  datatype CompareResponse = CompareResponse(baseCommitMessage: string, mergeBase: Commit)

  /** The `basehead` argument of the compare request (index.js:156). */
  function BaseHead(pr: PullRequest): (s: string)
    ensures |s| == |pr.baseRef| + 3 + |pr.headRef|
    ensures s[..|pr.baseRef|] == pr.baseRef && s[|s| - |pr.headRef|..] == pr.headRef
    ensures s[|pr.baseRef|..|s| - |pr.headRef|] == "..."
  {
    pr.baseRef + "..." + pr.headRef
  }

  /**
   * The fork point, or None when the compare request failed or when the
   * merge base of a report-commit tip has no parent (indexing the empty
   * `parents` throws and the error is swallowed).
   */
  function GetForkPoint(response: Option<CompareResponse>): (r: Option<string>)
    ensures response.None? ==> r.None?
    ensures response.Some? && response.value.baseCommitMessage == ReportCommitMessage ==>
              r == if response.value.mergeBase.parents == [] then None
                   else Some(response.value.mergeBase.parents[0])
    ensures response.Some? && response.value.baseCommitMessage != ReportCommitMessage ==>
              r == Some(response.value.mergeBase.sha)
  {
    match response
    case None => None
    case Some(data) =>
      if data.baseCommitMessage == ReportCommitMessage then
        if |data.mergeBase.parents| == 0 then None else Some(data.mergeBase.parents[0])
      else
        Some(data.mergeBase.sha)
  }
}
