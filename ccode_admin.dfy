/** CcodeAdmin: which changelist lookups the user-code admin allows. */
module CcodeAdmin {

  /** Python's str.startswith. */
  predicate StartsWith(s: string, prefix: string)
  {
    |prefix| <= |s| && s[..|prefix|] == prefix
  }

  /** CcodeAdmin.lookup_allowed. A lookup starting with "ccodeid" is allowed; any other lookup gets
      the framework's own answer, which is not modelled and comes in as `inherited`. */
  function LookupAllowed(lookup: string, inherited: bool): (allowed: bool)
    ensures "ccodeid" <= lookup ==> allowed
    ensures !("ccodeid" <= lookup) ==> allowed == inherited
  {
    if StartsWith(lookup, "ccodeid") then true else inherited
  }
}
