/** MyRouteAdminForm: a route that reads from an inbound channel must say what it reads. */
module RouteForm {
  import opened Records

  /** The cleaned data of a route form (the fields the check reads, and the route's key).
      `seqnr` is the route's `seq` field, renamed because `seq` is a reserved word in Dafny. */
  datatype RouteData = RouteData(
    idroute: string, seqnr: nat, fromchannel: Option<ChannelId>,
    fromeditype: string, frommessagetype: string, tochannel: Option<ChannelId>)

  /** The data-model invariant: a route with an inbound channel names both editype and messagetype. */
  predicate Typed(d: RouteData)
  {
    d.fromchannel.Some? ==> Filled(d.fromeditype) && Filled(d.frommessagetype)
  }

  /** MyRouteAdminForm.clean. */
  function Clean(d: RouteData): (r: Cleaned<RouteData>)
    ensures r.Accepted? <==> Typed(d)
    ensures d.fromchannel.None? ==> r.Accepted?
    ensures r.Rejected? <==> d.fromchannel.Some? && (d.fromeditype == "" || d.frommessagetype == "")
    ensures r.Accepted? ==> r.data == d
    ensures r.Rejected? ==> r.violation == ChannelNeedsTypes
  {
    if d.fromchannel.Some? && (!Filled(d.fromeditype) || !Filled(d.frommessagetype)) then
      Rejected(ChannelNeedsTypes)
    else
      Accepted(d)
  }
}
