/** MyPartnerAdminForm: a partner that is a group may not belong to a group. */
module PartnerForm {
  import opened Records

  /** The cleaned data of a partner form; `group` holds the groups the partner is a member of. */
  datatype PartnerData = PartnerData(idpartner: PartnerId, name: string, isgroup: bool, group: set<PartnerId>)

  /** The data-model invariant: groups are not nested. */
  predicate NotNested(d: PartnerData)
  {
    d.isgroup ==> d.group == {}
  }

  /** MyPartnerAdminForm.clean. */
  function Clean(d: PartnerData): (r: Cleaned<PartnerData>)
    ensures r.Accepted? <==> NotNested(d)
    ensures r.Rejected? <==> d.isgroup && d.group != {}
    ensures r.Accepted? ==> r.data == d
    ensures r.Rejected? ==> r.violation == GroupInGroup
  {
    if d.isgroup && d.group != {} then Rejected(GroupInGroup) else Accepted(d)
  }
}
