/** The events of the chained journal, as the registry code reads them: a name and
    the text-valued fields it looks up. A field that is absent or not a text is not
    in `data`. */
module Journal {
  import opened Basics

  datatype EventName =
    | ActionChallengeIssued
    | ActionSigned
    | ActionExecuted
    | CredentialRegistered
    | KeyConfirmed
    | KeyRevoked
    | Invited
    | BootstrapAdminInvited
    | AdminRecovery
    | RoleChanged
    | Reconciled
    | OtherEvent

  datatype Field =
    | ActionId
    | ChallengeId
    | BodyHash
    | CredentialId
    | Operateur
    | RoleField
    | NouveauRole
    | Statut
    | Resultat
    | InviteId

  datatype Event = Event(name: EventName, data: map<Field, string>)

  function Text(e: Event, f: Field): Option<string>
  {
    if f in e.data then Some(e.data[f]) else None
  }
}
