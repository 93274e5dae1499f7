/**
 * `getPullRequest` (index.js:134-150): of the pull requests the API associates
 * with the commit, the first whose state is "open"; null when there is none or
 * when the API call fails (None for the listing).
 */
module PullRequests {
  import opened Wrappers

  datatype PullRequest = PullRequest(number: int, state: string, baseRef: string, headRef: string)

  predicate IsOpen(pr: PullRequest) {
    pr.state == "open"
  }

  /** `filter(({state}) => state === 'open')`: the open pull requests, in listing order. */
  function OpenOnly(prs: seq<PullRequest>): (r: seq<PullRequest>)
    ensures |r| <= |prs|
    ensures forall pr :: pr in r <==> pr in prs && IsOpen(pr)
    ensures r != [] ==> exists i :: 0 <= i < |prs| && prs[i] == r[0] && FirstOpenAt(prs, i)
  {
    if prs == [] then
      []
    else
      var rest := OpenOnly(prs[1..]);
      if IsOpen(prs[0]) then
        assert FirstOpenAt(prs, 0);
        [prs[0]] + rest
      else
        assert rest != [] ==> exists i :: 0 <= i < |prs| && prs[i] == rest[0] && FirstOpenAt(prs, i) by {
          if rest != [] {
            var i :| 0 <= i < |prs[1..]| && prs[1..][i] == rest[0] && FirstOpenAt(prs[1..], i);
            assert FirstOpenAt(prs, i + 1);
          }
        }
        assert forall pr :: pr in prs && pr != prs[0] ==> pr in prs[1..];
        rest
  }

  /** `prs[i]` is open and no pull request listed before it is. */
  predicate FirstOpenAt(prs: seq<PullRequest>, i: nat) {
    i < |prs| && IsOpen(prs[i]) && forall j :: 0 <= j < i ==> !IsOpen(prs[j])
  }

  /** The pull request the run comments on. */
  function GetPullRequest(listing: Option<seq<PullRequest>>): (r: Option<PullRequest>)
    ensures r.None? <==> listing.None? || forall i :: 0 <= i < |listing.value| ==> !IsOpen(listing.value[i])
    ensures r.Some? ==> listing.Some? && exists i :: 0 <= i < |listing.value| && listing.value[i] == r.value && FirstOpenAt(listing.value, i)
  {
    match listing
    case None => None
    case Some(prs) =>
      var open := OpenOnly(prs);
      if |open| == 0 then
        assert forall i :: 0 <= i < |prs| ==> !IsOpen(prs[i]) by {
          forall i | 0 <= i < |prs| ensures !IsOpen(prs[i]) {
            assert prs[i] in prs;
          }
        }
        None
      else
        assert open[0] in open;
        Some(open[0])
  }

  /** At most one index is the first open one, so the selected pull request is determined. */
  lemma FirstOpenUnique(prs: seq<PullRequest>, i: nat, j: nat)
    requires FirstOpenAt(prs, i) && FirstOpenAt(prs, j)
    ensures i == j
  {
  }
}
