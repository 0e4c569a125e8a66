/** MyConfirmruleAdminForm: a confirm rule must name the object its ruletype is about. */
module ConfirmruleForm {
  import opened Records

  /** The cleaned data of a confirmrule form. `idroute` and `messagetype` are text fields;
      `idchannel`, `frompartner` and `topartner` refer to other records and may be absent. */
  datatype ConfirmruleData = ConfirmruleData(
    negativerule: bool, confirmtype: string, ruletype: string,
    idroute: string, idchannel: Option<ChannelId>,
    frompartner: Option<PartnerId>, topartner: Option<PartnerId>, messagetype: string)

  /** The five reference fields of a confirm rule. */
  datatype Reference = IdRoute | IdChannel | FromPartner | ToPartner | Messagetype

  /** Which reference field each known ruletype requires; other ruletypes require none. */
  const RequiredReference: map<string, Reference> :=
    map["route" := IdRoute, "channel" := IdChannel, "frompartner" := FromPartner,
        "topartner" := ToPartner, "messagetype" := Messagetype]

  /** Whether reference field f of d is set (Python truthiness of the field). */
  predicate Populated(d: ConfirmruleData, f: Reference)
  {
    match f
    case IdRoute => d.idroute != ""
    case IdChannel => d.idchannel.Some?
    case FromPartner => d.frompartner.Some?
    case ToPartner => d.topartner.Some?
    case Messagetype => d.messagetype != ""
  }

  /** MyConfirmruleAdminForm.clean: an if/elif chain over the ruletype literals. */
  function Clean(d: ConfirmruleData): (r: Cleaned<ConfirmruleData>)
    ensures r.Rejected? <==> d.ruletype in RequiredReference && !Populated(d, RequiredReference[d.ruletype])
    ensures d.ruletype !in RequiredReference ==> r.Accepted?
    ensures r.Accepted? ==> r.data == d
    ensures r.Rejected? ==> r.violation == MissingReference(d.ruletype)
  {
    if d.ruletype == "route" then
      if !Filled(d.idroute) then Rejected(MissingReference("route")) else Accepted(d)
    else if d.ruletype == "channel" then
      if d.idchannel.None? then Rejected(MissingReference("channel")) else Accepted(d)
    else if d.ruletype == "frompartner" then
      if d.frompartner.None? then Rejected(MissingReference("frompartner")) else Accepted(d)
    else if d.ruletype == "topartner" then
      if d.topartner.None? then Rejected(MissingReference("topartner")) else Accepted(d)
    else if d.ruletype == "messagetype" then
      if !Filled(d.messagetype) then Rejected(MissingReference("messagetype")) else Accepted(d)
    else
      Accepted(d)
  }

  /** Two confirm rules with the same ruletype whose required reference is equally set get the
      same verdict: the other four reference fields never affect the outcome. */
  lemma OnlyRequiredReferenceMatters(d1: ConfirmruleData, d2: ConfirmruleData)
    requires d1.ruletype == d2.ruletype
    requires d1.ruletype in RequiredReference
    requires Populated(d1, RequiredReference[d1.ruletype]) == Populated(d2, RequiredReference[d2.ruletype])
    ensures Clean(d1) == if Clean(d2).Accepted? then Accepted(d1) else Clean(d2)
  {
  }
}
