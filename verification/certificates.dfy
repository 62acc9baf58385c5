/** Certificates as the frontend reads them from the contract, and the three
    views over them: the card (status badge, permitted actions, document link),
    the list (which ids it fetches) and the page (which tab content shows). */
module Certificates {
  import opened Wrappers
  import Text
  import Roles

  /** A certificate as the list builds it from the contract's reply. */
  datatype Certificate = Certificate(
    id: nat,
    studentName: string,
    universityName: string,
    yearOfGraduation: int,
    degree: string,
    major: string,
    skills: seq<string>,
    documentUri: string,
    isApproved: bool,
    isRevoked: bool)

  /** The reply of `getCertificate(id)`: nine positional values. */
  type CertificateTuple = (string, string, int, string, string, seq<string>, string, bool, bool)

  /** The tuple-to-record mapping of `fetchCertificateDetails`. */
  function FromTuple(id: nat, t: CertificateTuple): (c: Certificate)
    ensures c.id == id
    ensures c.studentName == t.0 && c.universityName == t.1 && c.yearOfGraduation == t.2 && c.degree == t.3
    ensures c.major == t.4 && c.skills == t.5 && c.documentUri == t.6 && c.isApproved == t.7 && c.isRevoked == t.8
  {
    Certificate(id, t.0, t.1, t.2, t.3, t.4, t.5, t.6, t.7, t.8)
  }

  /** The contract's view of a certificate: its fields in declaration order. */
  function ToTuple(c: Certificate): CertificateTuple {
    (c.studentName, c.universityName, c.yearOfGraduation, c.degree, c.major, c.skills, c.documentUri, c.isApproved, c.isRevoked)
  }

  /** Positions 0 to 8 land in the nine fields in order, and nothing is lost:
      the record maps back to the very tuple it came from, and every record is
      the mapping of its own tuple. */
  lemma TupleRoundTrip(id: nat, t: CertificateTuple, c: Certificate)
    ensures ToTuple(FromTuple(id, t)) == t
    ensures FromTuple(c.id, ToTuple(c)) == c
  {
  }

  // ---------------------------------------------------------------------------
  // The card

  datatype Badge = ApprovedBadge | PendingBadge | RevokedBadge

  /** The badges the card renders, each under its own condition, in render order. */
  function Badges(c: Certificate): seq<Badge> {
    (if c.isApproved && !c.isRevoked then [ApprovedBadge] else [])
    + (if !c.isApproved && !c.isRevoked then [PendingBadge] else [])
    + (if c.isRevoked then [RevokedBadge] else [])
  }

  /** The status by precedence: revoked over approved over pending. */
  function Status(c: Certificate): Badge {
    if c.isRevoked then RevokedBadge
    else if c.isApproved then ApprovedBadge
    else PendingBadge
  }

  /** Exactly one badge is shown, and it is the certificate's status. */
  lemma ExactlyOneBadge(c: Certificate)
    ensures Badges(c) == [Status(c)]
  {
  }

  datatype Button = ApproveButton | RevokeButton

  /** The action buttons the card offers to a viewer. */
  function Buttons(c: Certificate, isAdmin: bool): (r: seq<Button>)
    ensures ApproveButton in r <==> !isAdmin && Status(c) == PendingBadge
    ensures RevokeButton in r <==> isAdmin && Status(c) == ApprovedBadge
    ensures |r| <= 1
  {
    (if !c.isApproved && !c.isRevoked && !isAdmin then [ApproveButton] else [])
    + (if c.isApproved && !c.isRevoked && isAdmin then [RevokeButton] else [])
  }

  /** The document link: none for an empty URI; an "ipfs://" URI goes through
      the public gateway; any other URI is linked as it is. */
  function DocumentLink(uri: string): (r: Option<string>)
    ensures r.None? <==> uri == ""
    ensures Text.StartsWith(uri, "ipfs://") ==> r == Some("https://ipfs.io/ipfs/" + uri[7..])
    ensures uri != "" && !Text.StartsWith(uri, "ipfs://") ==> r == Some(uri)
  {
    if uri == "" then None
    else if Text.StartsWith(uri, "ipfs://") then
      assert Text.ReplaceFirst(uri, "ipfs://", "") == uri[7..] by {
        assert |"ipfs://"| == 7;
        assert "" + uri[7..] == uri[7..];
      }
      Some("https://ipfs.io/ipfs/" + Text.ReplaceFirst(uri, "ipfs://", ""))
    else Some(uri)
  }

  /** Calls a card button makes, in order. */
  datatype CardEffect = ApproveTx(id: nat) | RevokeTx(id: nat) | Reload

  /** `handleApprove`: the transaction, then a reload once it succeeded. */
  function Approve(c: Certificate, txOk: bool): (r: seq<CardEffect>)
    ensures |r| > 0 && r[0] == ApproveTx(c.id)
    ensures Reload in r <==> txOk
    ensures |r| == (if txOk then 2 else 1)
  {
    [ApproveTx(c.id)] + (if txOk then [Reload] else [])
  }

  /** `handleRevoke`: nothing at all unless the user confirms; then the
      transaction, and a reload once it succeeded. */
  function Revoke(c: Certificate, confirmed: bool, txOk: bool): (r: seq<CardEffect>)
    ensures !confirmed <==> r == []
    ensures RevokeTx(c.id) in r <==> confirmed
    ensures Reload in r <==> confirmed && txOk
    ensures confirmed ==> r[0] == RevokeTx(c.id) && |r| == (if txOk then 2 else 1)
  {
    if !confirmed then [] else [RevokeTx(c.id)] + (if txOk then [Reload] else [])
  }

  // ---------------------------------------------------------------------------
  // The list

  /** 1, 2, …, n. */
  function OneTo(n: nat): (r: seq<nat>)
    ensures |r| == n
    ensures forall i :: 0 <= i < n ==> r[i] == i + 1
  {
    seq(n, i requires 0 <= i < n => i + 1)
  }

  /** The ids `fetchCertificateDetails` fetches, or None when it stops at once.
      `studentIds` is the reply of `getCertificatesByStudent` (None while not
      loaded), `total` that of `getTotalCertificates`. */
  function FetchPlan(studentIds: Option<seq<nat>>, isAdmin: bool, total: Option<nat>): (r: Option<seq<nat>>)
    ensures r.None? <==> !isAdmin && (studentIds.None? || |studentIds.value| == 0)
    ensures isAdmin && total.Some? && total.value > 0 ==> r == Some(OneTo(total.value))
    ensures !(isAdmin && total.Some? && total.value > 0) && studentIds.Some? && (isAdmin || |studentIds.value| > 0) ==>
              r == Some(studentIds.value)
    ensures isAdmin && !(total.Some? && total.value > 0) && studentIds.None? ==> r == Some([])
  {
    if !isAdmin && (studentIds.None? || |studentIds.value| == 0) then None
    else if isAdmin && total.Some? && total.value > 0 then Some(OneTo(total.value))
    else if studentIds.Some? then Some(studentIds.value)
    else Some([])
  }

  /** An admin's ids are strictly increasing and cover 1..N without gaps. */
  lemma AdminIdsIncreasing(total: nat, studentIds: Option<seq<nat>>)
    requires total > 0
    ensures var r := FetchPlan(studentIds, true, Some(total)).value;
            && |r| == total
            && (forall i, j :: 0 <= i < j < |r| ==> r[i] < r[j])
            && (forall k :: 1 <= k <= total ==> k in r)
  {
    var r := FetchPlan(studentIds, true, Some(total)).value;
    forall k | 1 <= k <= total
      ensures k in r
    {
      assert r[k - 1] == k;
    }
  }

  // ---------------------------------------------------------------------------
  // The page

  datatype Tab = ViewTab | AssistantTab | IssueTab

  datatype Body = IssueForm | AssistantPanel | CertificateList(isAdmin: bool)

  datatype Page =
    | ConnectPrompt
    | Management(tabs: seq<Tab>, requestsLink: bool, body: Body)

  /** The certificates page for a wallet, its owner lookup and the active tab. */
  function RenderPage(isConnected: bool, connected: Option<string>, owner: Option<string>, active: Tab): (r: Page)
    ensures !isConnected <==> r == ConnectPrompt
    ensures r.Management? ==>
              var admin := Roles.IsAdmin(connected, owner);
              && ViewTab in r.tabs && AssistantTab in r.tabs
              && (IssueTab in r.tabs <==> admin)
              && (r.requestsLink <==> admin)
              && (r.body == IssueForm <==> active == IssueTab && admin)
              && (r.body == AssistantPanel <==> active == AssistantTab)
              && (active == IssueTab && !admin ==> r.body == CertificateList(false))
              && (r.body.CertificateList? ==> r.body.isAdmin == admin)
  {
    if !isConnected then ConnectPrompt
    else
      var admin := Roles.IsAdmin(connected, owner);
      var tabs := [ViewTab, AssistantTab] + (if admin then [IssueTab] else []);
      var body :=
        if active == IssueTab && admin then IssueForm
        else if active == AssistantTab then AssistantPanel
        else CertificateList(admin);
      Management(tabs, admin, body)
  }
}
