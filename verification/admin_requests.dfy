/** The admin's request-review page: who may see it, what the table shows,
    which rows offer actions, and what issuing a request does, in order. Each
    request is the stored record as the request store serves it. */
module AdminRequests {
  import opened Wrappers
  import opened Json
  import Roles

  predicate IsPending(request: Value) {
    Get(request, "status") == Str("pending")
  }

  /** The "Pending" statistic: how many requests have status "pending". */
  function PendingCount(requests: seq<Value>): (r: nat)
    ensures r <= |requests|
    ensures r == |requests| <==> forall i :: 0 <= i < |requests| ==> IsPending(requests[i])
    ensures r == 0 <==> forall i :: 0 <= i < |requests| ==> !IsPending(requests[i])
  {
    if |requests| == 0 then 0
    else
      var rest := PendingCount(requests[1..]);
      assert forall i :: 1 <= i < |requests| ==> requests[i] == requests[1..][i - 1];
      (if IsPending(requests[0]) then 1 else 0) + rest
  }

  /** The pending count splits over concatenation, so a request appended by the
      store adds one exactly when it is pending. */
  lemma {:induction false} PendingCountAppend(a: seq<Value>, b: seq<Value>)
    ensures PendingCount(a + b) == PendingCount(a) + PendingCount(b)
    decreases |a|
  {
    if |a| > 0 {
      assert (a + b)[1..] == a[1..] + b;
      PendingCountAppend(a[1..], b);
    } else {
      assert a + b == b;
    }
  }

  /** The status badge of a row: anything other than "pending" or "approved"
      shows as rejected. */
  datatype StatusBadge = PendingBadge | ApprovedBadge | RejectedBadge

  function RowBadge(request: Value): (b: StatusBadge)
    ensures b == PendingBadge <==> IsPending(request)
    ensures b == ApprovedBadge <==> Get(request, "status") == Str("approved")
  {
    if IsPending(request) then PendingBadge
    else if Get(request, "status") == Str("approved") then ApprovedBadge
    else RejectedBadge
  }

  datatype Action = IssueAction | RejectAction

  /** The actions cell: Issue and Reject for a pending request, nothing otherwise. */
  function RowActions(request: Value): (r: seq<Action>)
    ensures |r| > 0 <==> IsPending(request)
    ensures |r| > 0 ==> r == [IssueAction, RejectAction]
  {
    if IsPending(request) then [IssueAction, RejectAction] else []
  }

  /** The id column: the first ten characters of the id, then "...". */
  function ShortId(id: string): (r: string)
    ensures |id| <= 10 ==> r == id + "..."
    ensures |id| > 10 ==> |r| == 13 && r[..10] == id[..10]
    ensures r[|r| - 3..] == "..."
  {
    (if |id| <= 10 then id else id[..10]) + "..."
  }

  datatype Row = Row(shortId: string, badge: StatusBadge, actions: seq<Action>)

  /** What the page renders. */
  datatype View =
    | Denied
    | Loading
    | NoRequests
    | Table(total: nat, pending: nat, rows: seq<Row>)

  /** The row of one request; the id is rendered as the string it is stored as. */
  function RowOf(request: Value): Row {
    var id := Get(request, "id");
    Row(ShortId(if id.Str? then id.s else ToJsString(id)), RowBadge(request), RowActions(request))
  }

  /** The page: non-admins see only the denial, admins a spinner while loading,
      then either the empty notice or the table with one row per request in the
      order served. */
  function Render(connected: Option<string>, owner: Option<string>, isLoading: bool, requests: seq<Value>): (r: View)
    ensures !Roles.IsAdmin(connected, owner) <==> r == Denied
    ensures Roles.IsAdmin(connected, owner) && isLoading <==> r == Loading
    ensures r.Table? ==>
              && |requests| > 0 && |r.rows| == |requests| && r.total == |requests|
              && r.pending == PendingCount(requests)
              && forall i :: 0 <= i < |requests| ==>
                   (|r.rows[i].actions| > 0 <==> IsPending(requests[i]))
                   && (r.rows[i].badge == PendingBadge <==> IsPending(requests[i]))
                   && r.rows[i].badge == RowBadge(requests[i])
                   && (Get(requests[i], "id").Str? ==> r.rows[i].shortId == ShortId(Get(requests[i], "id").s))
    ensures r == NoRequests <==> Roles.IsAdmin(connected, owner) && !isLoading && |requests| == 0
  {
    if !Roles.IsAdmin(connected, owner) then Denied
    else if isLoading then Loading
    else if |requests| == 0 then NoRequests
    else Table(|requests|, PendingCount(requests), seq(|requests|, i requires 0 <= i < |requests| => RowOf(requests[i])))
  }

  /** The arguments of the `issueCertificate` transaction, in order. */
  datatype IssueArgs = IssueArgs(
    studentAddress: Value,
    studentName: Value,
    universityName: Value,
    yearOfGraduation: int,
    degree: Value,
    major: Value,
    skills: seq<Value>,
    documentUri: string)

  /** What issuing a request does to the outside world, in order. */
  datatype Effect =
    | IssueTx(args: IssueArgs)
    | PostStatus(url: string)
    | Refresh

  /** The stored skills when they are an array, otherwise none. */
  function SkillsOf(request: Value): (r: seq<Value>)
    ensures Get(request, "skills").Arr? ==> r == Get(request, "skills").elems
    ensures !Get(request, "skills").Arr? ==> r == []
  {
    match Get(request, "skills")
    case Arr(es) => es
    case _ => []
  }

  function ApproveUrl(request: Value): string {
    "/api/certificate-requests/" + ToJsString(Get(request, "id")) + "/approve"
  }

  function RejectUrl(request: Value): string {
    "/api/certificate-requests/" + ToJsString(Get(request, "id")) + "/reject"
  }

  /** `handleIssueCertificate`. `ofString` is the engine's string-to-BigInt
      conversion; `issueOk` is whether the transaction call returned without
      throwing; `approveReached` whether the approve request got a response. */
  function HandleIssue(request: Value, ofString: string -> Option<int>, issueOk: bool, approveReached: bool): (r: seq<Effect>)
    ensures ToBigInt(Get(request, "yearOfGraduation"), ofString).None? ==> r == []
    ensures ToBigInt(Get(request, "yearOfGraduation"), ofString).Some? ==>
              && |r| > 0
              && r[0] == IssueTx(IssueArgs(
                   Get(request, "studentAddress"), Get(request, "studentName"), Get(request, "universityName"),
                   ToBigInt(Get(request, "yearOfGraduation"), ofString).value,
                   Get(request, "degree"), Get(request, "major"), SkillsOf(request), ""))
    ensures PostStatus(ApproveUrl(request)) in r <==> |r| > 0 && issueOk
    ensures Refresh in r <==> |r| > 0 && issueOk && approveReached
    ensures ToBigInt(Get(request, "yearOfGraduation"), ofString).Some? ==>
              |r| == (if !issueOk then 1 else if approveReached then 3 else 2)
  {
    match ToBigInt(Get(request, "yearOfGraduation"), ofString)
    case None => []
    case Some(year) =>
      var args := IssueArgs(Get(request, "studentAddress"), Get(request, "studentName"), Get(request, "universityName"),
                            year, Get(request, "degree"), Get(request, "major"), SkillsOf(request), "");
      [IssueTx(args)]
      + (if issueOk then [PostStatus(ApproveUrl(request))] + (if approveReached then [Refresh] else []) else [])
  }

  /** The request is marked approved only after the issue transaction, and the
      list is refreshed only after it is marked. */
  lemma ApproveFollowsIssue(request: Value, ofString: string -> Option<int>, issueOk: bool, approveReached: bool)
    ensures var r := HandleIssue(request, ofString, issueOk, approveReached);
            forall i :: 0 <= i < |r| ==>
              && (r[i].PostStatus? ==> i == 1 && r[0].IssueTx?)
              && (r[i].Refresh? ==> i == 2 && r[1] == PostStatus(ApproveUrl(request)))
  {
  }

  /** The Reject button: post the rejection, then refresh once it got a response. */
  function HandleReject(request: Value, rejectReached: bool): (r: seq<Effect>)
    ensures |r| > 0 && r[0] == PostStatus(RejectUrl(request))
    ensures Refresh in r <==> rejectReached
    ensures |r| == (if rejectReached then 2 else 1)
  {
    [PostStatus(RejectUrl(request))] + (if rejectReached then [Refresh] else [])
  }
}
