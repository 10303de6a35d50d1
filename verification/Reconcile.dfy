/** `operators reconcile`: each divergence is re-applied, acknowledged or left, and each
    resolution is written to the journal before it is committed. */
module Reconcile {
  import opened Basics
  import opened Actions
  import opened Journal
  import opened Registry
  import opened Order
  import opened Replay

  const REAPPLIED_REVOCATION := "reapplied_revocation"
  const REAPPLIED_ROLE := "reapplied_role"
  const ACKNOWLEDGED_MISSING := "acknowledged_missing"

  /** What is left to the operator: a missing key that was not acknowledged. */
  predicate Left(d: Divergence, ack: seq<string>)
  {
    d.MissingKey? && d.id !in ack
  }

  function EventFor(d: Divergence): Event
  {
    match d
    case RevokedInJournal(id, operator) =>
      Event(Reconciled, map[Resultat := REAPPLIED_REVOCATION, CredentialId := id, Operateur := operator])
    case RoleDiffers(name, role, _) =>
      Event(Reconciled, map[Resultat := REAPPLIED_ROLE, Operateur := name, RoleField := role])
    case MissingKey(id, operator) =>
      Event(Reconciled, map[Resultat := ACKNOWLEDGED_MISSING, CredentialId := id, Operateur := operator])
  }

  function Repaired(db: Db, d: Divergence): Db
  {
    match d
    case RevokedInJournal(id, _) =>
      if id in db.keys && !db.keys[id].revoked then db.(keys := db.keys[id := db.keys[id].(revoked := true)]) else db
    case RoleDiffers(name, role, _) =>
      if name in db.operators then db.(operators := db.operators[name := db.operators[name].(role := role)]) else db
    case MissingKey(_, _) => db
  }

  /** The table's CHECK on roles refuses the update. */
  predicate Unacceptable(db: Db, d: Divergence)
  {
    d.RoleDiffers? && d.name in db.operators && ParseRole(d.journalRole).None?
  }

  datatype Outcome = Outcome(world: World, resolved: seq<Divergence>, unresolved: seq<Divergence>,
                             error: Option<Refusal>)

  function Resolved(d: Divergence, rest: Outcome): Outcome
  {
    rest.(resolved := [d] + rest.resolved)
  }

  /** Resolves `ds` in order; the journal takes `writes` more events before it fails. */
  function ResolveAll(w: World, ds: seq<Divergence>, ack: seq<string>, dry: bool, writes: nat): Outcome
    decreases |ds|
  {
    if ds == [] then Outcome(w, [], [], None)
    else if Left(ds[0], ack) then
      var rest := ResolveAll(w, ds[1..], ack, dry, writes);
      rest.(unresolved := [ds[0]] + rest.unresolved)
    else if dry then Resolved(ds[0], ResolveAll(w, ds[1..], ack, dry, writes))
    else if Unacceptable(w.db, ds[0]) then Outcome(w, [], [], Some(Database))
    else if writes == 0 then Outcome(w, [], [], Some(JournalDown))
    else
      Resolved(ds[0], ResolveAll(World(Repaired(w.db, ds[0]), w.journal + [EventFor(ds[0])]), ds[1..], ack, dry,
                                 writes - 1))
  }

  /** `id` is reported as a missing key. */
  predicate Missing(ds: seq<Divergence>, id: string)
  {
    exists d | d in ds :: d.MissingKey? && d.id == id
  }

  function Reconciliation(w: World, f: Facts, reason: string, ack: seq<string>, dry: bool, writes: nat): Outcome
  {
    if Trim(reason) == "" then Outcome(w, [], [], Some(BadRequest))
    else if exists id | id in ack :: !Missing(Divergences(f, w.db), id) then Outcome(w, [], [], Some(BadRequest))
    else ResolveAll(w, Divergences(f, w.db), ack, dry, writes)
  }

  /** What has been done so far, before `rest`. */
  function After(resolved: seq<Divergence>, unresolved: seq<Divergence>, rest: Outcome): Outcome
  {
    rest.(resolved := resolved + rest.resolved, unresolved := unresolved + rest.unresolved)
  }

  lemma AfterResolved(resolved: seq<Divergence>, unresolved: seq<Divergence>, d: Divergence, rest: Outcome)
    ensures After(resolved, unresolved, Resolved(d, rest)) == After(resolved + [d], unresolved, rest)
    ensures After(resolved, unresolved, rest.(unresolved := [d] + rest.unresolved))
         == After(resolved, unresolved + [d], rest)
  {
    assert resolved + ([d] + rest.resolved) == (resolved + [d]) + rest.resolved;
    assert unresolved + ([d] + rest.unresolved) == (unresolved + [d]) + rest.unresolved;
  }

  /** Only what is really reported missing can be acknowledged. */
  method AllMissing(ds: seq<Divergence>, ack: seq<string>) returns (ok: bool)
    ensures ok <==> forall id | id in ack :: Missing(ds, id)
  {
    for i := 0 to |ack|
      invariant forall j | 0 <= j < i :: Missing(ds, ack[j])
    {
      if !Missing(ds, ack[i]) {
        return false;
      }
    }
    ok := true;
  }

  /** One resolution: the database update, the event, the commit. */
  method ResolveOne(store: Store, d: Divergence, journalUp: bool) returns (r: Option<Refusal>)
    modifies store
    ensures r == if Unacceptable(old(store.Tables()), d) then Some(Database)
                 else if !journalUp then Some(JournalDown) else None
    ensures store.Contents() == if r.Some? then old(store.Contents())
                                else World(Repaired(old(store.Tables()), d), old(store.journal) + [EventFor(d)])
  {
    var txKeys, txOperators := store.keys, store.operators;
    match d {
      case RevokedInJournal(id, operator) =>
        if id in txKeys && !txKeys[id].revoked {
          txKeys := txKeys[id := txKeys[id].(revoked := true)];
        }
      case RoleDiffers(name, role, _) =>
        if name in txOperators {
          if ParseRole(role).None? {
            return Some(Database);
          }
          txOperators := txOperators[name := txOperators[name].(role := role)];
        }
      case MissingKey(_, _) =>
    }
    r := store.Write(EventFor(d), journalUp);
    if r.None? {
      store.keys, store.operators := txKeys, txOperators;
    }
  }

  method Run(store: Store, f: Facts, reason: string, ack: seq<string>, dry: bool, writes: nat)
    returns (resolved: seq<Divergence>, unresolved: seq<Divergence>, error: Option<Refusal>)
    modifies store
    ensures Outcome(store.Contents(), resolved, unresolved, error)
         == Reconciliation(old(store.Contents()), f, reason, ack, dry, writes)
  {
    resolved, unresolved, error := [], [], None;
    if Trim(reason) == "" {
      return [], [], Some(BadRequest);
    }
    var left := FindDivergences(f, store.Tables());
    var ok := AllMissing(left, ack);
    if !ok {
      return [], [], Some(BadRequest);
    }
    var budget := writes;
    ghost var all := ResolveAll(store.Contents(), left, ack, dry, budget);
    while left != []
      invariant all == After(resolved, unresolved, ResolveAll(store.Contents(), left, ack, dry, budget))
      invariant error == None
      decreases |left|
    {
      var d := left[0];
      ghost var before := store.Contents();
      if Left(d, ack) {
        AfterResolved(resolved, unresolved, d, ResolveAll(before, left[1..], ack, dry, budget));
        unresolved := unresolved + [d];
      } else if dry {
        AfterResolved(resolved, unresolved, d, ResolveAll(before, left[1..], ack, dry, budget));
        resolved := resolved + [d];
      } else {
        error := ResolveOne(store, d, budget > 0);
        if error.Some? {
          return;
        }
        budget := budget - 1;
        AfterResolved(resolved, unresolved, d, ResolveAll(store.Contents(), left[1..], ack, dry, budget));
        resolved := resolved + [d];
      }
      left := left[1..];
    }
  }

  // ---- What reconciling achieves ----

  /** `d` is what the journal and the database of `w` disagree on, about its subject. */
  predicate Stands(w: World, d: Divergence)
  {
    On(FromEvents(w.journal), w.db, About(d)) == Some(d)
  }

  function Step(w: World, d: Divergence): World
  {
    World(Repaired(w.db, d), w.journal + [EventFor(d)])
  }

  /** The journal's account after the event for `d`. */
  function Noted(f: Facts, d: Divergence): Facts
  {
    if d.MissingKey? then f.(acknowledged := f.acknowledged + {d.id}) else f
  }

  lemma ResultsDiffer()
    ensures REAPPLIED_REVOCATION != ACKNOWLEDGED_MISSING && REAPPLIED_ROLE != ACKNOWLEDGED_MISSING
  {
    assert REAPPLIED_REVOCATION[0] != ACKNOWLEDGED_MISSING[0] && REAPPLIED_ROLE[0] != ACKNOWLEDGED_MISSING[0];
  }

  lemma StepNotes(w: World, d: Divergence)
    ensures FromEvents(Step(w, d).journal) == Noted(FromEvents(w.journal), d)
  {
    OneMoreEvent(w.journal, EventFor(d));
    ResultsDiffer();
  }

  lemma RepairSettles(f: Facts, db: Db, d: Divergence, s: Subject)
    requires On(f, db, About(d)) == Some(d)
    ensures On(Noted(f, d), Repaired(db, d), s) == if s == About(d) then None else On(f, db, s)
  {
  }

  /** One resolution settles its own subject and touches no other. */
  lemma StepSettles(w: World, d: Divergence, s: Subject)
    requires Stands(w, d)
    ensures On(FromEvents(Step(w, d).journal), Step(w, d).db, s)
         == if s == About(d) then None else On(FromEvents(w.journal), w.db, s)
  {
    StepNotes(w, d);
    RepairSettles(FromEvents(w.journal), w.db, d, s);
  }

  lemma {:induction false} StepKeepsOthers(w: World, d: Divergence, subjects: seq<Subject>)
    requires Stands(w, d) && About(d) !in subjects
    ensures OnAll(FromEvents(Step(w, d).journal), Step(w, d).db, subjects)
            == OnAll(FromEvents(w.journal), w.db, subjects)
  {
    if subjects != [] {
      StepSettles(w, d, subjects[0]);
      StepKeepsOthers(w, d, subjects[1..]);
    }
  }

  predicate Distinct(subjects: seq<Subject>)
  {
    forall i, j | 0 <= i < j < |subjects| :: subjects[i] != subjects[j]
  }

  /** What still stands once `out` is reached from `ds`: what was left, and what a failure
      kept from being reached. */
  function Remaining(ds: seq<Divergence>, out: Outcome): seq<Divergence>
    requires |out.resolved| + |out.unresolved| <= |ds|
  {
    out.unresolved + ds[|out.resolved| + |out.unresolved|..]
  }

  lemma {:induction false} CountsFit(w: World, ds: seq<Divergence>, ack: seq<string>, dry: bool, writes: nat)
    ensures var out := ResolveAll(w, ds, ack, dry, writes);
            |out.resolved| + |out.unresolved| <= |ds| && (out.error.None? ==> |out.resolved| + |out.unresolved| == |ds|)
    ensures dry ==> ResolveAll(w, ds, ack, dry, writes).world == w && ResolveAll(w, ds, ack, dry, writes).error.None?
    decreases |ds|
  {
    if ds != [] {
      CountsFit(w, ds[1..], ack, dry, writes);
      if writes > 0 {
        CountsFit(Step(w, ds[0]), ds[1..], ack, dry, writes - 1);
      }
    }
  }

  function Found(w: World, subjects: seq<Subject>): seq<Divergence>
  {
    OnAll(FromEvents(w.journal), w.db, subjects)
  }

  function FoundOn(w: World, s: Subject): Option<Divergence>
  {
    On(FromEvents(w.journal), w.db, s)
  }

  lemma FoundHead(w: World, subjects: seq<Subject>)
    requires subjects != []
    ensures FoundOn(w, subjects[0]).None? ==> Found(w, subjects) == Found(w, subjects[1..])
    ensures FoundOn(w, subjects[0]).Some? ==>
              && Found(w, subjects) == [FoundOn(w, subjects[0]).value] + Found(w, subjects[1..])
              && About(FoundOn(w, subjects[0]).value) == subjects[0]
  {
  }

  /** Resolving findings leaves every other subject as it was. */
  lemma {:induction false} ElsewhereUntouched(w: World, subjects: seq<Subject>, ack: seq<string>, writes: nat,
                                              s: Subject)
    requires Distinct(subjects) && s !in subjects
    ensures FoundOn(ResolveAll(w, Found(w, subjects), ack, false, writes).world, s) == FoundOn(w, s)
    decreases |subjects|
  {
    if subjects != [] {
      FoundHead(w, subjects);
      var rest := subjects[1..];
      if FoundOn(w, subjects[0]).None? {
        ElsewhereUntouched(w, rest, ack, writes, s);
      } else {
        var d := FoundOn(w, subjects[0]).value;
        var tail := Found(w, rest);
        assert ([d] + tail)[1..] == tail;
        if Left(d, ack) {
          ElsewhereUntouched(w, rest, ack, writes, s);
        } else if !Unacceptable(w.db, d) && writes > 0 {
          StepKeepsOthers(w, d, rest);
          StepSettles(w, d, s);
          ElsewhereUntouched(Step(w, d), rest, ack, writes - 1, s);
        }
      }
    }
  }

  /** In `out`, the findings on `subjects`, once `ds`, are what `Remaining` says. */
  predicate Leaves(subjects: seq<Subject>, ds: seq<Divergence>, out: Outcome)
  {
    |out.resolved| + |out.unresolved| <= |ds| && Found(out.world, subjects) == Remaining(ds, out)
  }

  lemma HeadAgreed(subjects: seq<Subject>, ds: seq<Divergence>, out: Outcome)
    requires subjects != [] && FoundOn(out.world, subjects[0]).None? && Leaves(subjects[1..], ds, out)
    ensures Leaves(subjects, ds, out)
  {
    FoundHead(out.world, subjects);
  }

  lemma HeadLeft(subjects: seq<Subject>, ds: seq<Divergence>, out: Outcome, d: Divergence)
    requires subjects != [] && FoundOn(out.world, subjects[0]) == Some(d) && Leaves(subjects[1..], ds, out)
    ensures Leaves(subjects, [d] + ds, out.(unresolved := [d] + out.unresolved))
  {
    FoundHead(out.world, subjects);
  }

  lemma HeadResolved(subjects: seq<Subject>, ds: seq<Divergence>, out: Outcome, d: Divergence)
    requires subjects != [] && FoundOn(out.world, subjects[0]).None? && Leaves(subjects[1..], ds, out)
    ensures Leaves(subjects, [d] + ds, Resolved(d, out))
  {
    FoundHead(out.world, subjects);
  }

  lemma ResolveHead(w: World, d: Divergence, tail: seq<Divergence>, ack: seq<string>, writes: nat)
    ensures var out := ResolveAll(w, [d] + tail, ack, false, writes);
            if Left(d, ack) then
              var rest := ResolveAll(w, tail, ack, false, writes);
              out == rest.(unresolved := [d] + rest.unresolved)
            else if !Unacceptable(w.db, d) && writes > 0 then
              out == Resolved(d, ResolveAll(Step(w, d), tail, ack, false, writes - 1))
            else
              out.world == w && out.resolved == [] && out.unresolved == []
  {
    assert ([d] + tail)[1..] == tail;
  }

  lemma LeavesWhenAgreed(w: World, subjects: seq<Subject>, ack: seq<string>, writes: nat, out: Outcome)
    requires subjects != [] && FoundOn(w, subjects[0]).None? && FoundOn(out.world, subjects[0]).None?
    requires out == ResolveAll(w, Found(w, subjects[1..]), ack, false, writes)
    requires Leaves(subjects[1..], Found(w, subjects[1..]), out)
    ensures Leaves(subjects, Found(w, subjects), ResolveAll(w, Found(w, subjects), ack, false, writes))
  {
    FoundHead(w, subjects);
    HeadAgreed(subjects, Found(w, subjects[1..]), out);
  }

  lemma LeavesWhenLeft(w: World, subjects: seq<Subject>, ack: seq<string>, writes: nat, out: Outcome, d: Divergence)
    requires subjects != [] && FoundOn(w, subjects[0]) == FoundOn(out.world, subjects[0]) == Some(d) && Left(d, ack)
    requires out == ResolveAll(w, Found(w, subjects[1..]), ack, false, writes)
    requires Leaves(subjects[1..], Found(w, subjects[1..]), out)
    ensures Leaves(subjects, Found(w, subjects), ResolveAll(w, Found(w, subjects), ack, false, writes))
  {
    FoundHead(w, subjects);
    ResolveHead(w, d, Found(w, subjects[1..]), ack, writes);
    HeadLeft(subjects, Found(w, subjects[1..]), out, d);
  }

  lemma LeavesWhenResolved(w: World, subjects: seq<Subject>, ack: seq<string>, writes: nat, out: Outcome, d: Divergence)
    requires subjects != [] && FoundOn(w, subjects[0]) == Some(d) && FoundOn(out.world, subjects[0]).None?
    requires !Left(d, ack) && !Unacceptable(w.db, d) && writes > 0
    requires out == ResolveAll(Step(w, d), Found(w, subjects[1..]), ack, false, writes - 1)
    requires Leaves(subjects[1..], Found(w, subjects[1..]), out)
    ensures Leaves(subjects, Found(w, subjects), ResolveAll(w, Found(w, subjects), ack, false, writes))
  {
    FoundHead(w, subjects);
    ResolveHead(w, d, Found(w, subjects[1..]), ack, writes);
    HeadResolved(subjects, Found(w, subjects[1..]), out, d);
  }

  lemma LeavesWhenStuck(w: World, subjects: seq<Subject>, ack: seq<string>, writes: nat, d: Divergence)
    requires subjects != [] && FoundOn(w, subjects[0]) == Some(d)
    requires !Left(d, ack) && (Unacceptable(w.db, d) || writes == 0)
    ensures Leaves(subjects, Found(w, subjects), ResolveAll(w, Found(w, subjects), ack, false, writes))
  {
    FoundHead(w, subjects);
    ResolveHead(w, d, Found(w, subjects[1..]), ack, writes);
  }

  /** The findings on `subjects`, resolved in order, leave exactly what `Remaining` says. */
  lemma {:induction false} ResolvingLeaves(w: World, subjects: seq<Subject>, ack: seq<string>, writes: nat)
    requires Distinct(subjects)
    ensures Leaves(subjects, Found(w, subjects), ResolveAll(w, Found(w, subjects), ack, false, writes))
    decreases |subjects|
  {
    if subjects != [] {
      var s, rest := subjects[0], subjects[1..];
      assert s !in rest;
      if FoundOn(w, s).Some? && !Left(FoundOn(w, s).value, ack) {
        var d := FoundOn(w, s).value;
        if Unacceptable(w.db, d) || writes == 0 {
          LeavesWhenStuck(w, subjects, ack, writes, d);
        } else {
          StepKeepsOthers(w, d, rest);
          StepSettles(w, d, s);
          ResolvingLeaves(Step(w, d), rest, ack, writes - 1);
          ElsewhereUntouched(Step(w, d), rest, ack, writes - 1, s);
          LeavesWhenResolved(w, subjects, ack, writes, ResolveAll(Step(w, d), Found(w, rest), ack, false, writes - 1),
                             d);
        }
      } else {
        var out := ResolveAll(w, Found(w, rest), ack, false, writes);
        ResolvingLeaves(w, rest, ack, writes);
        ElsewhereUntouched(w, rest, ack, writes, s);
        if FoundOn(w, s).None? {
          LeavesWhenAgreed(w, subjects, ack, writes, out);
        } else {
          LeavesWhenLeft(w, subjects, ack, writes, out, FoundOn(w, s).value);
        }
      }
    }
  }

  // ---- The main results ----

  lemma ConsDistinct(s: Subject, rest: seq<Subject>)
    requires Distinct(rest) && s !in rest
    ensures Distinct([s] + rest)
  {
  }

  lemma {:induction false} SubjectsDistinct(ids: seq<string>, names: seq<string>)
    requires Sorted(ids) && Sorted(names)
    ensures Distinct(KeySubjects(ids)) && Distinct(RoleSubjects(names))
    decreases |ids| + |names|
  {
    if ids != [] {
      SubjectsDistinct(ids[1..], names);
      forall s | s in KeySubjects(ids[1..])
        ensures s != OfKey(ids[0])
      {
        InSubjects(ids[1..], names, s);
        assert s.id in ids[1..];
      }
      ConsDistinct(OfKey(ids[0]), KeySubjects(ids[1..]));
    } else if names != [] {
      SubjectsDistinct(ids, names[1..]);
      forall s | s in RoleSubjects(names[1..])
        ensures s != OfRole(names[0])
      {
        InSubjects(ids, names[1..], s);
        assert s.name in names[1..];
      }
      ConsDistinct(OfRole(names[0]), RoleSubjects(names[1..]));
    }
  }

  lemma SubjectsAreDistinct(f: Facts)
    ensures Distinct(Subjects(f))
  {
    var ids, names := Ascending(f.keys.Keys), Ascending(f.roles.Keys);
    AscendingIsSorted(f.keys.Keys);
    AscendingIsSorted(f.roles.Keys);
    SubjectsDistinct(ids, names);
    forall i, j | 0 <= i < j < |Subjects(f)|
      ensures Subjects(f)[i] != Subjects(f)[j]
    {
      InSubjects(ids, names, Subjects(f)[i]);
      InSubjects(ids, names, Subjects(f)[j]);
    }
  }

  /** What the journal says of keys and roles. */
  function Account(f: Facts): Facts
  {
    f.(acknowledged := {})
  }

  lemma SameSubjects(f: Facts, g: Facts)
    requires Account(f) == Account(g)
    ensures Subjects(f) == Subjects(g)
  {
  }

  /** The two journals say the same of keys and roles. */
  ghost predicate SameAccount(a: seq<Event>, b: seq<Event>)
  {
    Account(FromEvents(a)) == Account(FromEvents(b))
  }

  lemma StepSameAccount(w: World, d: Divergence)
    ensures SameAccount(w.journal, Step(w, d).journal)
  {
    StepNotes(w, d);
  }

  /** Reconciling adds to the journal nothing about keys or roles. */
  lemma {:induction false} AccountKept(w: World, ds: seq<Divergence>, ack: seq<string>, writes: nat)
    ensures SameAccount(w.journal, ResolveAll(w, ds, ack, false, writes).world.journal)
    decreases |ds|
  {
    if ds != [] {
      assert ds == [ds[0]] + ds[1..];
      ResolveHead(w, ds[0], ds[1..], ack, writes);
      if Left(ds[0], ack) {
        AccountKept(w, ds[1..], ack, writes);
      } else if !Unacceptable(w.db, ds[0]) && writes > 0 {
        StepSameAccount(w, ds[0]);
        AccountKept(Step(w, ds[0]), ds[1..], ack, writes - 1);
      }
    }
  }

  /** Replaying the extended journal over the reconciled database finds exactly what was
      left unresolved; after a failure, also everything not yet reached, and nothing else. */
  lemma ReconcileLeavesExactly(w: World, reason: string, ack: seq<string>, writes: nat)
    ensures var f := FromEvents(w.journal);
            var out := Reconciliation(w, f, reason, ack, false, writes);
            && |out.resolved| + |out.unresolved| <= |Divergences(f, w.db)|
            && Divergences(FromEvents(out.world.journal), out.world.db) == Remaining(Divergences(f, w.db), out)
            && (out.error.None? ==> Divergences(FromEvents(out.world.journal), out.world.db) == out.unresolved)
  {
    var f := FromEvents(w.journal);
    SubjectsAreDistinct(f);
    CountsFit(w, Divergences(f, w.db), ack, false, writes);
    ResolvingLeaves(w, Subjects(f), ack, writes);
    AccountKept(w, Divergences(f, w.db), ack, writes);
    SameSubjects(f, FromEvents(ResolveAll(w, Divergences(f, w.db), ack, false, writes).world.journal));
  }

  /** What is left unresolved is exactly the missing keys nobody acknowledged. */
  lemma {:induction false} UnresolvedIff(w: World, ds: seq<Divergence>, ack: seq<string>, dry: bool, writes: nat,
                                         d: Divergence)
    requires ResolveAll(w, ds, ack, dry, writes).error.None?
    ensures d in ResolveAll(w, ds, ack, dry, writes).unresolved <==> d in ds && Left(d, ack)
    decreases |ds|
  {
    if ds != [] {
      assert ds == [ds[0]] + ds[1..];
      if Left(ds[0], ack) || dry {
        UnresolvedIff(w, ds[1..], ack, dry, writes, d);
      } else {
        UnresolvedIff(Step(w, ds[0]), ds[1..], ack, dry, writes - 1, d);
      }
    }
  }

  /** A reconciliation that succeeds ends every divergence precisely when each missing key
      was acknowledged. */
  lemma AllSettledIff(w: World, reason: string, ack: seq<string>, writes: nat)
    requires Reconciliation(w, FromEvents(w.journal), reason, ack, false, writes).error.None?
    ensures var ds := Divergences(FromEvents(w.journal), w.db);
            var after := Reconciliation(w, FromEvents(w.journal), reason, ack, false, writes).world;
            Divergences(FromEvents(after.journal), after.db) == []
            <==> forall d | d in ds :: d.MissingKey? ==> d.id in ack
  {
    ReconcileLeavesExactly(w, reason, ack, writes);
    var ds := Divergences(FromEvents(w.journal), w.db);
    var out := ResolveAll(w, ds, ack, false, writes);
    forall d
      ensures d in out.unresolved <==> d in ds && Left(d, ack)
    {
      UnresolvedIff(w, ds, ack, false, writes, d);
    }
    if out.unresolved != [] {
      assert out.unresolved[0] in out.unresolved;
    }
  }

  /** A dry run changes neither the database nor the journal, and announces the outcome. */
  lemma DryRunChangesNothing(w: World, f: Facts, reason: string, ack: seq<string>, writes: nat)
    ensures Reconciliation(w, f, reason, ack, true, writes).world == w
    ensures var actual := Reconciliation(w, f, reason, ack, false, writes);
            var dry := Reconciliation(w, f, reason, ack, true, writes);
            actual.error.None? ==> dry == actual.(world := w)
  {
    CountsFit(w, Divergences(f, w.db), ack, true, writes);
    if !(Trim(reason) == "" || exists id | id in ack :: !Missing(Divergences(f, w.db), id)) {
      DryAnnounces(w, w, Divergences(f, w.db), ack, writes, writes);
    }
  }

  lemma {:induction false} DryAnnounces(w: World, v: World, ds: seq<Divergence>, ack: seq<string>, writes: nat,
                                        any: nat)
    ensures var actual := ResolveAll(w, ds, ack, false, writes);
            actual.error.None? ==> ResolveAll(v, ds, ack, true, any) == actual.(world := v)
    decreases |ds|
  {
    if ds != [] {
      if Left(ds[0], ack) {
        DryAnnounces(w, v, ds[1..], ack, writes, any);
      } else if !Unacceptable(w.db, ds[0]) && writes > 0 {
        DryAnnounces(Step(w, ds[0]), v, ds[1..], ack, writes - 1, any);
      }
    }
  }
}
