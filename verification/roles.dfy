/** The admin check shared by the certificates page and the request-review
    page: the connected wallet is the admin when it is the contract owner,
    compared without regard to letter case. */
module Roles {
  import opened Wrappers
  import Text

  /** Two addresses spell the same characters up to ASCII letter case. */
  predicate SameIgnoringCase(a: string, b: string) {
    |a| == |b| && forall i :: 0 <= i < |a| ==> Text.LowerChar(a[i]) == Text.LowerChar(b[i])
  }

  /** The effect that sets `isAdmin`: both addresses must be present (an empty
      string is falsy and counts as absent) and equal after lower-casing. */
  function IsAdmin(connected: Option<string>, owner: Option<string>): (r: bool)
    ensures r <==> connected.Some? && owner.Some? && connected.value != "" && owner.value != ""
                   && SameIgnoringCase(connected.value, owner.value)
  {
    if connected.Some? && owner.Some? && connected.value != "" && owner.value != "" then
      var a := Text.ToLower(connected.value);
      var b := Text.ToLower(owner.value);
      assert a == b <==> SameIgnoringCase(connected.value, owner.value) by {
        if SameIgnoringCase(connected.value, owner.value) {
          assert forall i :: 0 <= i < |a| ==> a[i] == b[i];
        }
      }
      a == b
    else false
  }

  /** The check does not depend on how either address is capitalised, nor on
      which of the two is the owner. */
  lemma IsAdminIgnoresCase(connected: string, owner: string)
    ensures IsAdmin(Some(connected), Some(owner)) == IsAdmin(Some(Text.ToLower(connected)), Some(owner))
    ensures IsAdmin(Some(connected), Some(owner)) == IsAdmin(Some(connected), Some(Text.ToLower(owner)))
    ensures IsAdmin(Some(connected), Some(owner)) == IsAdmin(Some(owner), Some(connected))
  {
    var lc := Text.ToLower(connected);
    var lo := Text.ToLower(owner);
    assert forall i :: 0 <= i < |lc| ==> Text.LowerChar(lc[i]) == Text.LowerChar(connected[i]);
    assert forall i :: 0 <= i < |lo| ==> Text.LowerChar(lo[i]) == Text.LowerChar(owner[i]);
    assert lc != "" <==> connected != "";
    assert lo != "" <==> owner != "";
  }
}
