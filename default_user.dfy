/**
 * The Default-User heuristic: blame the user named by the build feature's default-responsible
 * parameter.  The server's user model is the map `accounts` from username to account.
 */
module DefaultUserHeuristic {
  import opened Common

  /** `String.valueOf` of the parameter's value: a missing value prints as "null". */
  function ParameterText(value: Option<string>): (s: string)
    ensures value.Some? ==> s == value.value
  {
    match value
    case None => "null"
    case Some(v) => v
  }

  /**
   * `findResponsibleUser`, whatever the failure: only the first descriptor of the feature is
   * read; an empty name or a name without an account makes the heuristic abstain.
   */
  function FindResponsibleUser(accounts: map<string, User>, b: Build): (r: Option<Pair>)
    ensures r.Some? <==>
      |b.features| > 0 && ParameterText(b.features[0].defaultResponsible) != ""
      && ParameterText(b.features[0].defaultResponsible) in accounts
    ensures r.Some? ==>
      r.value == Pair(Some(accounts[ParameterText(b.features[0].defaultResponsible)]),
                      DefaultResponsible(b.fullName, b.buildNumber))
  {
    if |b.features| == 0 then None
    else
      var defaultResponsible := ParameterText(b.features[0].defaultResponsible);
      if defaultResponsible == "" then None
      else if defaultResponsible !in accounts then None
      else Some(Pair(Some(accounts[defaultResponsible]), DefaultResponsible(b.fullName, b.buildNumber)))
  }

  /** Descriptors after the first one are never consulted. */
  lemma OnlyFirstDescriptorCounts(accounts: map<string, User>, b: Build, more: seq<FeatureDescriptor>)
    requires |b.features| > 0
    ensures FindResponsibleUser(accounts, b.(features := b.features[..1] + more)) == FindResponsibleUser(accounts, b)
  {
  }

  /**
   * A descriptor without the parameter is read as the username "null", so an account with that
   * name is blamed rather than the heuristic abstaining.
   */
  lemma MissingParameterNamesNullUser(accounts: map<string, User>, b: Build)
    requires |b.features| > 0 && b.features[0].defaultResponsible.None?
    ensures FindResponsibleUser(accounts, b).Some? <==> "null" in accounts
    ensures "null" in accounts ==> FindResponsibleUser(accounts, b).value.user == Some(accounts["null"])
  {
  }
}
