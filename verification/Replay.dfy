/** Replaying the journal against the registry, and reconciling: the journal is the source
    of truth, and is not restored with the database. */
module Replay {
  import opened Basics
  import opened Journal
  import opened Registry
  import opened Order

  datatype KeyFacts = KeyFacts(operator: string, revoked: bool)

  /** What the journal attests of the registry. */
  datatype Facts = Facts(keys: map<string, KeyFacts>, roles: map<string, string>, acknowledged: set<string>)

  const NO_FACTS: Facts := Facts(map[], map[], {})

  function EntryOf(f: Facts, id: string): KeyFacts
  {
    if id in f.keys then f.keys[id] else KeyFacts("", false)
  }

  function WithOwner(f: Facts, id: Option<string>, operator: Option<string>): Facts
  {
    if id.None? || operator.None? then f
    else f.(keys := f.keys[id.value := EntryOf(f, id.value).(operator := operator.value)])
  }

  function WithRole(f: Facts, name: Option<string>, role: Option<string>): Facts
  {
    if name.None? || role.None? then f else f.(roles := f.roles[name.value := role.value])
  }

  function OrEmpty(s: Option<string>): string
  {
    if s.Some? then s.value else ""
  }

  /** One event; the name of the owner, once known, is not replaced by a revocation. */
  function Absorb(f: Facts, e: Event): Facts
  {
    var id, operator := Text(e, CredentialId), Text(e, Operateur);
    match e.name
    case CredentialRegistered => if Text(e, Statut) == Some("active") then WithOwner(f, id, operator) else f
    case KeyConfirmed => WithOwner(f, id, operator)
    case KeyRevoked =>
      if id.None? then f
      else
        var k := EntryOf(f, id.value);
        f.(keys := f.keys[id.value := KeyFacts(if k.operator == "" then OrEmpty(operator) else k.operator, true)])
    case Invited => WithRole(f, operator, Text(e, RoleField))
    case BootstrapAdminInvited =>
      if operator.Some? && operator.value in f.roles then f else WithRole(f, operator, Some(ADMIN))
    case AdminRecovery =>
      if operator.Some? && operator.value in f.roles then f else WithRole(f, operator, Some(ADMIN))
    case RoleChanged => WithRole(f, operator, Text(e, NouveauRole))
    case Reconciled =>
      if Text(e, Resultat) == Some("acknowledged_missing") && id.Some?
      then f.(acknowledged := f.acknowledged + {id.value}) else f
    case _ => f
  }

  function FromEvents(events: seq<Event>): Facts
  {
    if events == [] then NO_FACTS else Absorb(FromEvents(events[..|events| - 1]), events[|events| - 1])
  }

  lemma OneMoreEvent(events: seq<Event>, e: Event)
    ensures FromEvents(events + [e]) == Absorb(FromEvents(events), e)
  {
    assert (events + [e])[..|events|] == events;
  }

  method ReplayEvents(events: seq<Event>) returns (f: Facts)
    ensures f == FromEvents(events)
  {
    var keys: map<string, KeyFacts>, roles: map<string, string>, acknowledged: set<string> := map[], map[], {};
    for i := 0 to |events|
      invariant Facts(keys, roles, acknowledged) == FromEvents(events[..i])
    {
      var e := events[i];
      OneMoreEvent(events[..i], e);
      assert events[..i + 1] == events[..i] + [e];
      var id, operator := Text(e, CredentialId), Text(e, Operateur);
      var k := if id.Some? && id.value in keys then keys[id.value] else KeyFacts("", false);
      match e.name {
        case CredentialRegistered =>
          if Text(e, Statut) == Some("active") && id.Some? && operator.Some? {
            keys := keys[id.value := k.(operator := operator.value)];
          }
        case KeyConfirmed =>
          if id.Some? && operator.Some? {
            keys := keys[id.value := k.(operator := operator.value)];
          }
        case KeyRevoked =>
          if id.Some? {
            k := k.(revoked := true);
            if k.operator == "" {
              k := k.(operator := OrEmpty(operator));
            }
            keys := keys[id.value := k];
          }
        case Invited =>
          if operator.Some? && Text(e, RoleField).Some? {
            roles := roles[operator.value := Text(e, RoleField).value];
          }
        case BootstrapAdminInvited =>
          if operator.Some? && operator.value !in roles {
            roles := roles[operator.value := ADMIN];
          }
        case AdminRecovery =>
          if operator.Some? && operator.value !in roles {
            roles := roles[operator.value := ADMIN];
          }
        case RoleChanged =>
          if operator.Some? && Text(e, NouveauRole).Some? {
            roles := roles[operator.value := Text(e, NouveauRole).value];
          }
        case Reconciled =>
          if Text(e, Resultat) == Some("acknowledged_missing") && id.Some? {
            acknowledged := acknowledged + {id.value};
          }
        case _ =>
      }
    }
    assert events[..|events|] == events;
    f := Facts(keys, roles, acknowledged);
  }

  // ---- Divergences ----

  datatype Divergence =
    | RevokedInJournal(id: string, operator: string)
    | RoleDiffers(name: string, journalRole: string, dbRole: string)
    | MissingKey(id: string, operator: string)

  /** What a divergence can be about. */
  datatype Subject = OfKey(id: string) | OfRole(name: string)

  function About(d: Divergence): Subject
  {
    if d.RoleDiffers? then OfRole(d.name) else OfKey(d.id)
  }

  function OnKey(f: Facts, db: Db, id: string): Option<Divergence>
  {
    if id !in f.keys then None
    else if id in db.keys && !db.keys[id].revoked && f.keys[id].revoked
    then Some(RevokedInJournal(id, f.keys[id].operator))
    else if id !in db.keys && !f.keys[id].revoked && id !in f.acknowledged
    then Some(MissingKey(id, f.keys[id].operator))
    else None
  }

  function OnRole(f: Facts, db: Db, name: string): Option<Divergence>
  {
    if name in f.roles && name in db.operators && db.operators[name].role != f.roles[name]
    then Some(RoleDiffers(name, f.roles[name], db.operators[name].role)) else None
  }

  function On(f: Facts, db: Db, s: Subject): Option<Divergence>
  {
    match s
    case OfKey(id) => OnKey(f, db, id)
    case OfRole(name) => OnRole(f, db, name)
  }

  function AsSeq<T>(o: Option<T>): seq<T>
  {
    if o.Some? then [o.value] else []
  }

  function OnAll(f: Facts, db: Db, subjects: seq<Subject>): seq<Divergence>
  {
    if subjects == [] then [] else AsSeq(On(f, db, subjects[0])) + OnAll(f, db, subjects[1..])
  }

  function KeySubjects(ids: seq<string>): seq<Subject>
  {
    if ids == [] then [] else [OfKey(ids[0])] + KeySubjects(ids[1..])
  }

  function RoleSubjects(names: seq<string>): seq<Subject>
  {
    if names == [] then [] else [OfRole(names[0])] + RoleSubjects(names[1..])
  }

  /** Keys first, then roles, each in the order of its map. */
  function Subjects(f: Facts): seq<Subject>
  {
    KeySubjects(Ascending(f.keys.Keys)) + RoleSubjects(Ascending(f.roles.Keys))
  }

  function Divergences(f: Facts, db: Db): seq<Divergence>
  {
    OnAll(f, db, Subjects(f))
  }

  lemma {:induction false} OnAllSplits(f: Facts, db: Db, a: seq<Subject>, b: seq<Subject>)
    ensures OnAll(f, db, a + b) == OnAll(f, db, a) + OnAll(f, db, b)
  {
    if a == [] {
      assert a + b == b;
    } else {
      assert (a + b)[1..] == a[1..] + b;
      OnAllSplits(f, db, a[1..], b);
      Regrouped(AsSeq(On(f, db, a[0])), OnAll(f, db, a[1..]), OnAll(f, db, b));
    }
  }

  lemma NextKey(f: Facts, db: Db, out: seq<Divergence>, ids: seq<string>)
    requires ids != []
    ensures out + OnAll(f, db, KeySubjects(ids))
         == (out + AsSeq(OnKey(f, db, ids[0]))) + OnAll(f, db, KeySubjects(ids[1..]))
  {
    assert KeySubjects(ids)[0] == OfKey(ids[0]) && KeySubjects(ids)[1..] == KeySubjects(ids[1..]);
    Regrouped(out, AsSeq(OnKey(f, db, ids[0])), OnAll(f, db, KeySubjects(ids[1..])));
  }

  lemma NextRole(f: Facts, db: Db, out: seq<Divergence>, names: seq<string>)
    requires names != []
    ensures out + OnAll(f, db, RoleSubjects(names))
         == (out + AsSeq(OnRole(f, db, names[0]))) + OnAll(f, db, RoleSubjects(names[1..]))
  {
    assert RoleSubjects(names)[0] == OfRole(names[0]) && RoleSubjects(names)[1..] == RoleSubjects(names[1..]);
    Regrouped(out, AsSeq(OnRole(f, db, names[0])), OnAll(f, db, RoleSubjects(names[1..])));
  }

  method KeyDivergences(f: Facts, db: Db) returns (out: seq<Divergence>)
    ensures out == OnAll(f, db, KeySubjects(Ascending(f.keys.Keys)))
  {
    out := [];
    var ids := Ascending(f.keys.Keys);
    ghost var all := OnAll(f, db, KeySubjects(ids));
    while ids != []
      invariant forall id | id in ids :: id in f.keys
      invariant all == out + OnAll(f, db, KeySubjects(ids))
      decreases |ids|
    {
      NextKey(f, db, out, ids);
      var id := ids[0];
      var facts, known := f.keys[id], id in db.keys;
      if known && !db.keys[id].revoked && facts.revoked {
        out := out + [RevokedInJournal(id, facts.operator)];
      } else if !known && !facts.revoked && id !in f.acknowledged {
        out := out + [MissingKey(id, facts.operator)];
      } else {
        assert out + [] == out;
      }
      ids := ids[1..];
    }
  }

  method RoleDivergences(f: Facts, db: Db) returns (out: seq<Divergence>)
    ensures out == OnAll(f, db, RoleSubjects(Ascending(f.roles.Keys)))
  {
    out := [];
    var names := Ascending(f.roles.Keys);
    ghost var all := OnAll(f, db, RoleSubjects(names));
    while names != []
      invariant forall name | name in names :: name in f.roles
      invariant all == out + OnAll(f, db, RoleSubjects(names))
      decreases |names|
    {
      NextRole(f, db, out, names);
      var name := names[0];
      if name in db.operators && db.operators[name].role != f.roles[name] {
        out := out + [RoleDiffers(name, f.roles[name], db.operators[name].role)];
      } else {
        assert out + [] == out;
      }
      names := names[1..];
    }
  }

  method FindDivergences(f: Facts, db: Db) returns (out: seq<Divergence>)
    ensures out == Divergences(f, db)
  {
    var keys := KeyDivergences(f, db);
    var roles := RoleDivergences(f, db);
    OnAllSplits(f, db, KeySubjects(Ascending(f.keys.Keys)), RoleSubjects(Ascending(f.roles.Keys)));
    out := keys + roles;
  }

  lemma {:induction false} InSubjects(ids: seq<string>, names: seq<string>, s: Subject)
    ensures s in KeySubjects(ids) <==> s.OfKey? && s.id in ids
    ensures s in RoleSubjects(names) <==> s.OfRole? && s.name in names
    decreases |ids| + |names|
  {
    if ids != [] {
      InSubjects(ids[1..], names, s);
      assert ids == [ids[0]] + ids[1..];
    } else if names != [] {
      InSubjects(ids, names[1..], s);
      assert names == [names[0]] + names[1..];
    }
  }

  lemma {:induction false} InOnAll(f: Facts, db: Db, subjects: seq<Subject>, d: Divergence)
    ensures d in OnAll(f, db, subjects) <==> About(d) in subjects && On(f, db, About(d)) == Some(d)
  {
    if subjects != [] {
      InOnAll(f, db, subjects[1..], d);
    }
  }

  /** The journal's account and the database differ so: a key revoked there and in force here,
      one in force there, missing here and not given up, or an operator with another role. */
  predicate Differ(f: Facts, db: Db, d: Divergence)
  {
    match d
    case RevokedInJournal(id, operator) =>
      id in f.keys && f.keys[id] == KeyFacts(operator, true) && id in db.keys && !db.keys[id].revoked
    case MissingKey(id, operator) =>
      id in f.keys && f.keys[id] == KeyFacts(operator, false) && id !in db.keys && id !in f.acknowledged
    case RoleDiffers(name, journalRole, dbRole) =>
      && name in f.roles && f.roles[name] == journalRole && name in db.operators && db.operators[name].role == dbRole
      && journalRole != dbRole
  }

  /** The list holds a divergence exactly when the journal and the database differ that way. */
  lemma DivergenceIff(f: Facts, db: Db, d: Divergence)
    ensures d in Divergences(f, db) <==> Differ(f, db, d)
    ensures d in Divergences(f, db) <==> On(f, db, About(d)) == Some(d)
  {
    InOnAll(f, db, Subjects(f), d);
    InSubjects(Ascending(f.keys.Keys), Ascending(f.roles.Keys), About(d));
  }
}
