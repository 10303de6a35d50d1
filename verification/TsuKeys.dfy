/** Key generations of a time-stamping unit: one key pair per certificate, found by name in
    the token, never overwritten, destroyed only when an operator asks. */
module TsuKeys {
  import opened Basics

  const MAX_GENERATIONS := 64

  function DigitChar(d: nat): char
    requires d < 10
  {
    ('0' as int + d) as char
  }

  function Decimal(n: nat): (s: string)
    ensures s != ""
  {
    if n < 10 then [DigitChar(n)] else Decimal(n / 10) + [DigitChar(n % 10)]
  }

  /** Generation 1 has the configured name itself. */
  function Label(base: string, generation: nat): string
  {
    if generation <= 1 then base else base + ['.'] + Decimal(generation)
  }

  lemma {:induction false} DecimalInjective(m: nat, n: nat)
    requires Decimal(m) == Decimal(n)
    ensures m == n
    decreases m
  {
    var s := Decimal(m);
    assert s[|s| - 1] == DigitChar(m % 10) && s[|s| - 1] == DigitChar(n % 10);
    if m >= 10 && n >= 10 {
      assert s[..|s| - 1] == Decimal(m / 10) && s[..|s| - 1] == Decimal(n / 10);
      DecimalInjective(m / 10, n / 10);
    }
  }

  /** Two generations share a name precisely when they are the same, or 0 and 1. */
  lemma LabelSharedIff(base: string, m: nat, n: nat)
    ensures Label(base, m) == Label(base, n) <==> m == n || (m <= 1 && n <= 1)
  {
    if m > 1 && n > 1 && Label(base, m) == Label(base, n) {
      assert (base + ['.'] + Decimal(m))[|base| + 1..] == Decimal(m);
      assert (base + ['.'] + Decimal(n))[|base| + 1..] == Decimal(n);
      DecimalInjective(m, n);
    }
  }

  /** The number that a row of decimal digits stands for. */
  function Read(ds: string): int
  {
    if ds == "" then 0 else 10 * Read(ds[..|ds| - 1]) + (ds[|ds| - 1] as int - '0' as int)
  }

  lemma {:induction false} DecimalReads(n: nat)
    ensures Read(Decimal(n)) == n && (forall c | c in Decimal(n) :: '0' <= c <= '9')
    ensures n > 0 ==> Decimal(n)[0] != '0'
    decreases n
  {
    if n < 10 {
      assert Decimal(n)[..0] == "";
    } else {
      DecimalReads(n / 10);
      var front := Decimal(n / 10);
      assert Decimal(n)[..|Decimal(n)| - 1] == front && Decimal(n)[0] == front[0];
    }
  }

  /** A later generation has the configured name, a dot, and its number in decimal. */
  lemma LabelReads(base: string, n: nat)
    ensures n <= 1 ==> Label(base, n) == base
    ensures n > 1 ==>
              && |Label(base, n)| > |base| + 1 && Label(base, n)[..|base|] == base && Label(base, n)[|base|] == '.'
              && var ds := Label(base, n)[|base| + 1..];
                 Read(ds) == n && (forall c | c in ds :: '0' <= c <= '9') && ds[0] != '0'
  {
    if n > 1 {
      DecimalReads(n);
      assert Label(base, n)[|base| + 1..] == Decimal(n);
    }
  }

  datatype Generations = Generations(matching: Option<nat>, newest: Option<nat>)

  type Answer = Result<Option<Bytes>, string>

  /** The labels of a token, by generation. */
  function Labels(base: string): nat -> string
  {
    (g: nat) => Label(base, g)
  }

  /** Different generations have different labels, but for 0 and 1. */
  ghost predicate Apart(labels: nat -> string)
  {
    forall m, n :: labels(m) == labels(n) <==> m == n || (m <= 1 && n <= 1)
  }

  lemma LabelsApart(base: string)
    ensures Apart(Labels(base))
  {
    forall m: nat, n: nat
      ensures Labels(base)(m) == Labels(base)(n) <==> m == n || (m <= 1 && n <= 1)
    {
      LabelSharedIff(base, m, n);
    }
  }

  /** What `find` knows after the first `n` generations. */
  function FoundBy(labels: nat -> string, cert: Option<Bytes>, spkiOf: string -> Answer, n: nat)
    : Result<Generations, string>
  {
    if n == 0 then Ok(Generations(None, None))
    else
      var before := FoundBy(labels, cert, spkiOf, n - 1);
      var answer := spkiOf(labels(n));
      if before.Err? then before
      else if answer.Err? then Err(answer.error)
      else if answer.value.None? then before
      else Ok(Generations(if cert == answer.value then Some(n) else before.value.matching, Some(n)))
  }

  /** Looks through every generation; a failing token is never taken for an absent key. */
  method Find(base: string, cert: Option<Bytes>, spkiOf: string -> Answer) returns (r: Result<Generations, string>)
    ensures r == FoundBy(Labels(base), cert, spkiOf, MAX_GENERATIONS)
  {
    var found := Generations(None, None);
    for generation := 1 to MAX_GENERATIONS + 1
      invariant FoundBy(Labels(base), cert, spkiOf, generation - 1) == Ok(found)
    {
      var answer := spkiOf(Label(base, generation));
      if answer.Err? {
        ErrorStays(Labels(base), cert, spkiOf, generation, MAX_GENERATIONS);
        return Err(answer.error);
      }
      if answer.value.Some? {
        found := found.(newest := Some(generation));
        if cert == answer.value {
          found := found.(matching := Some(generation));
        }
      }
    }
    r := Ok(found);
  }

  lemma {:induction false} ErrorStays(labels: nat -> string, cert: Option<Bytes>, spkiOf: string -> Answer, n: nat,
                                      m: nat)
    requires n <= m && FoundBy(labels, cert, spkiOf, n).Err?
    ensures FoundBy(labels, cert, spkiOf, m) == FoundBy(labels, cert, spkiOf, n)
    decreases m
  {
    if n < m {
      ErrorStays(labels, cert, spkiOf, n, m - 1);
    }
  }

  predicate Readable(labels: nat -> string, spkiOf: string -> Answer, g: nat)
  {
    spkiOf(labels(g)).Ok?
  }

  predicate Present(labels: nat -> string, spkiOf: string -> Answer, g: nat)
  {
    spkiOf(labels(g)).Ok? && spkiOf(labels(g)).value.Some?
  }

  predicate Matches(labels: nat -> string, cert: Option<Bytes>, spkiOf: string -> Answer, g: nat)
  {
    Present(labels, spkiOf, g) && cert == spkiOf(labels(g)).value
  }

  /** The answer of `find`: the largest generation present up to `n`, and the largest that
      holds the certificate's key. */
  ghost predicate Answers(labels: nat -> string, cert: Option<Bytes>, spkiOf: string -> Answer, n: nat, f: Generations)
  {
    && (f.newest.Some? ==> 1 <= f.newest.value <= n && Present(labels, spkiOf, f.newest.value))
    && (forall k | 1 <= k <= n && Present(labels, spkiOf, k) :: f.newest.Some? && k <= f.newest.value)
    && (f.matching.Some? ==> 1 <= f.matching.value <= n && Matches(labels, cert, spkiOf, f.matching.value))
    && (forall k | 1 <= k <= n && Matches(labels, cert, spkiOf, k) :: f.matching.Some? && k <= f.matching.value)
  }

  /** `find` fails precisely when some answer is unreadable, and else is right. */
  lemma {:induction false} FindIs(labels: nat -> string, cert: Option<Bytes>, spkiOf: string -> Answer, n: nat)
    ensures FoundBy(labels, cert, spkiOf, n).Ok? <==> forall k | 1 <= k <= n :: Readable(labels, spkiOf, k)
    ensures FoundBy(labels, cert, spkiOf, n).Ok? ==>
              Answers(labels, cert, spkiOf, n, FoundBy(labels, cert, spkiOf, n).value)
  {
    if n > 0 {
      FindIs(labels, cert, spkiOf, n - 1);
      assert Readable(labels, spkiOf, n) <==> spkiOf(labels(n)).Ok?;
    }
  }

  datatype KeyPlan = Generate(generation: nat) | Use(generation: nat)

  function Plan(found: Generations): Option<KeyPlan>
  {
    if found.newest.None? then Some(Generate(1))
    else if found.matching == found.newest then
      (if found.newest.value >= MAX_GENERATIONS then None else Some(Generate(found.newest.value + 1)))
    else Some(Use(found.newest.value))
  }

  predicate Retirable(found: Generations, generation: nat)
  {
    found.matching.Some? && generation < found.matching.value
  }

  // ---- Enrolments and retirements ----

  /** The token, the certificate's key in the file; for the record, every key ever generated and
      the label it was given, in order, and the generations whose certificates were installed. */
  datatype State = State(token: map<string, Bytes>, cert: Option<Bytes>, made: seq<Bytes>, used: seq<string>,
                         installed: seq<nat>)

  const START: State := State(map[], None, [], [], [])

  /** `enroll`, which may fail before the key is generated or after; `retire-key`. */
  datatype Step =
    | Enroll(usable: bool, key: Bytes, generates: bool, certified: bool)
    | Retire(generation: nat, confirmed: bool, written: bool)

  function Lookup(token: map<string, Bytes>): string -> Answer
  {
    name => if name in token then Ok(Some(token[name])) else Ok(None)
  }

  /** What `find` yields on a readable token. */
  function Seen(labels: nat -> string, st: State): Generations
  {
    var r := FoundBy(labels, st.cert, Lookup(st.token), MAX_GENERATIONS);
    if r.Ok? then r.value else Generations(None, None)
  }

  function Install(labels: nat -> string, st: State, generation: nat, certified: bool): State
    requires labels(generation) in st.token
  {
    if certified then st.(cert := Some(st.token[labels(generation)]), installed := st.installed + [generation]) else st
  }

  function Generated(labels: nat -> string, st: State, generation: nat, key: Bytes): State
  {
    st.(token := st.token[labels(generation) := key], made := st.made + [key], used := st.used + [labels(generation)])
  }

  function AfterEnroll(labels: nat -> string, st: State, s: Step): State
    requires s.Enroll?
  {
    var found := Seen(labels, st);
    var plan := Plan(found);
    if (found.matching.Some? && s.usable) || plan.None? then st
    else if plan.value.Use? then
      if labels(plan.value.generation) in st.token then Install(labels, st, plan.value.generation, s.certified) else st
    else if !s.generates then st
    else Install(labels, Generated(labels, st, plan.value.generation, s.key), plan.value.generation, s.certified)
  }

  function AfterRetire(labels: nat -> string, st: State, s: Step): State
    requires s.Retire?
  {
    if Retirable(Seen(labels, st), s.generation) && s.confirmed && s.written
    then st.(token := st.token - {labels(s.generation)}) else st
  }

  function Next(labels: nat -> string, st: State, s: Step): State
  {
    if s.Enroll? then AfterEnroll(labels, st, s) else AfterRetire(labels, st, s)
  }

  /** A generated key is new; generation 0 is not asked for while generation 1 is in service. */
  predicate Sensible(labels: nat -> string, st: State, s: Step)
  {
    if s.Enroll? then s.key !in st.made
    else s.generation == 0 ==> Seen(labels, st).matching != Some(1)
  }

  predicate AllDistinct<T(==)>(s: seq<T>)
  {
    forall i, j | 0 <= i < j < |s| :: s[i] != s[j]
  }

  /** Generation `g` was made and is still in the token. */
  predicate Holds(labels: nat -> string, st: State, g: nat)
  {
    1 <= g <= |st.made| && labels(g) in st.token && st.token[labels(g)] == st.made[g - 1]
  }

  /** The generation in service. */
  function InService(st: State): nat
    requires st.installed != []
  {
    st.installed[|st.installed| - 1]
  }

  ghost predicate TokenOk(labels: nat -> string, st: State)
  {
    && Apart(labels) && |st.made| <= MAX_GENERATIONS && AllDistinct(st.made)
    && (forall name | name in st.token :: exists g :: Holds(labels, st, g) && name == labels(g))
    && (st.made != [] ==> Holds(labels, st, |st.made|))
  }

  ghost predicate ServiceOk(labels: nat -> string, st: State)
  {
    && (st.installed == [] <==> st.cert.None?)
    && (st.installed == [] ==> |st.made| <= 1)
    && (st.installed != [] ==>
          && Holds(labels, st, InService(st)) && st.cert == Some(st.made[InService(st) - 1])
          && |st.made| - 1 <= InService(st) <= |st.made|)
    && (forall i | 0 <= i < |st.installed| :: 1 <= st.installed[i] <= |st.made|)
    && (forall i, j | 0 <= i < j < |st.installed| :: st.installed[i] < st.installed[j])
  }

  /** The i-th key made was given the label of generation i. */
  ghost predicate UsedOk(labels: nat -> string, st: State)
  {
    |st.used| == |st.made| && forall i | 0 <= i < |st.used| :: st.used[i] == labels(i + 1)
  }

  ghost predicate Inv(labels: nat -> string, st: State)
  {
    TokenOk(labels, st) && ServiceOk(labels, st)
  }

  /** On such a token, a name of generation 1 or more holds that generation's key or none. */
  lemma LabelHolds(labels: nat -> string, st: State, g: nat)
    requires TokenOk(labels, st) && g >= 1
    ensures labels(g) in st.token <==> Holds(labels, st, g)
  {
    if labels(g) in st.token {
      var h :| Holds(labels, st, h) && labels(g) == labels(h);
    }
  }

  /** `find` sees the newest key made, and the generation in service. */
  lemma SeenIs(labels: nat -> string, st: State)
    requires Inv(labels, st)
    ensures Seen(labels, st).newest == if st.made == [] then None else Some(|st.made|)
    ensures Seen(labels, st).matching == if st.installed == [] then None else Some(InService(st))
  {
    FindIs(labels, st.cert, Lookup(st.token), MAX_GENERATIONS);
    var found := Seen(labels, st);
    forall g | 1 <= g <= MAX_GENERATIONS
      ensures Present(labels, Lookup(st.token), g) <==> Holds(labels, st, g)
    {
      LabelHolds(labels, st, g);
    }
    assert found.newest.Some? ==> Holds(labels, st, found.newest.value);
    assert found.matching.Some? ==> Holds(labels, st, found.matching.value);
    assert st.made != [] ==> Present(labels, Lookup(st.token), |st.made|);
    assert st.installed != [] ==> Matches(labels, st.cert, Lookup(st.token), InService(st));
  }

  lemma GenerateKeepsHeld(labels: nat -> string, st: State, key: Bytes, h: nat)
    requires TokenOk(labels, st)
    ensures labels(|st.made| + 1) !in st.token
    ensures Holds(labels, st, h) ==> Holds(labels, Generated(labels, st, |st.made| + 1, key), h)
    ensures Holds(labels, Generated(labels, st, |st.made| + 1, key), |st.made| + 1)
  {
    LabelHolds(labels, st, |st.made| + 1);
  }

  lemma GenerateKeepsToken(labels: nat -> string, st: State, key: Bytes)
    requires TokenOk(labels, st) && key !in st.made && |st.made| < MAX_GENERATIONS
    ensures labels(|st.made| + 1) !in st.token && TokenOk(labels, Generated(labels, st, |st.made| + 1, key))
    ensures forall h | Holds(labels, st, h) :: Holds(labels, Generated(labels, st, |st.made| + 1, key), h)
  {
    var st' := Generated(labels, st, |st.made| + 1, key);
    forall h: nat
      ensures Holds(labels, st, h) ==> Holds(labels, st', h)
    {
      GenerateKeepsHeld(labels, st, key, h);
    }
    GenerateKeepsHeld(labels, st, key, 0);
    forall name | name in st'.token
      ensures exists h :: Holds(labels, st', h) && name == labels(h)
    {
      if name in st.token {
        var h :| Holds(labels, st, h) && name == labels(h);
        assert Holds(labels, st', h);
      }
    }
  }

  lemma GenerateKeepsService(labels: nat -> string, st: State, st': State, key: Bytes)
    requires ServiceOk(labels, st) && st' == Generated(labels, st, |st.made| + 1, key)
    requires forall h | Holds(labels, st, h) :: Holds(labels, st', h)
    requires st.installed == [] ==> st.made == []
    requires st.installed != [] ==> InService(st) == |st.made|
    ensures ServiceOk(labels, st')
  {
  }

  lemma InstallKeeps(labels: nat -> string, st: State, certified: bool)
    requires Inv(labels, st) && st.made != [] && (st.installed != [] ==> InService(st) < |st.made|)
    ensures Inv(labels, Install(labels, st, |st.made|, certified))
            && Install(labels, st, |st.made|, certified).made == st.made
  {
    var st' := Install(labels, st, |st.made|, certified);
    assert forall h :: Holds(labels, st', h) <==> Holds(labels, st, h);
  }

  /** A fresh key, then its certificate, when no key waits. */
  lemma RenewKeeps(labels: nat -> string, st: State, key: Bytes, certified: bool)
    requires Inv(labels, st) && key !in st.made && |st.made| < MAX_GENERATIONS
    requires st.installed == [] ==> st.made == []
    requires st.installed != [] ==> InService(st) == |st.made|
    ensures labels(|st.made| + 1) !in st.token
    ensures var st' := Install(labels, Generated(labels, st, |st.made| + 1, key), |st.made| + 1, certified);
            Inv(labels, st') && st'.made == st.made + [key]
  {
    var st' := Generated(labels, st, |st.made| + 1, key);
    GenerateKeepsToken(labels, st, key);
    GenerateKeepsService(labels, st, st', key);
    InstallKeeps(labels, st', certified);
  }

  lemma EnrollKeeps(labels: nat -> string, st: State, s: Step)
    requires Inv(labels, st) && s.Enroll? && s.key !in st.made
    ensures Inv(labels, AfterEnroll(labels, st, s))
  {
    SeenIs(labels, st);
    var plan := Plan(Seen(labels, st));
    if plan.Some? && plan.value.Use? {
      InstallKeeps(labels, st, s.certified);
    } else if plan.Some? {
      RenewKeeps(labels, st, s.key, s.certified);
    }
  }

  /** What is left in the token once an old generation goes. */
  lemma RemovedKeeps(labels: nat -> string, st: State, generation: nat)
    requires Inv(labels, st) && st.installed != [] && labels(generation) != labels(InService(st))
    requires labels(generation) != labels(|st.made|)
    ensures Inv(labels, st.(token := st.token - {labels(generation)}))
  {
    var st' := st.(token := st.token - {labels(generation)});
    assert forall h | Holds(labels, st, h) && labels(h) != labels(generation) :: Holds(labels, st', h);
  }

  lemma RetireKeeps(labels: nat -> string, st: State, s: Step)
    requires Inv(labels, st) && s.Retire? && Sensible(labels, st, s)
    ensures Inv(labels, AfterRetire(labels, st, s)) && AfterRetire(labels, st, s).made == st.made
  {
    SeenIs(labels, st);
    if Retirable(Seen(labels, st), s.generation) {
      assert labels(s.generation) != labels(InService(st)) && labels(s.generation) != labels(|st.made|);
      RemovedKeeps(labels, st, s.generation);
    }
  }

  lemma NextKeeps(labels: nat -> string, st: State, s: Step)
    requires Inv(labels, st) && Sensible(labels, st, s)
    ensures Inv(labels, Next(labels, st, s))
  {
    if s.Enroll? {
      EnrollKeeps(labels, st, s);
    } else {
      RetireKeeps(labels, st, s);
    }
  }

  predicate StepsTo(labels: nat -> string, st: State, s: Step, st': State)
  {
    Sensible(labels, st, s) && st' == Next(labels, st, s)
  }

  /** `st` is reached from an empty token by the steps `steps`, in that order. */
  ghost predicate Reaches(labels: nat -> string, steps: seq<Step>, st: State)
  {
    if steps == [] then st == START
    else exists before :: StepsTo(labels, before, Last(steps), st) && Reaches(labels, Front(steps), before)
  }

  lemma {:induction false} RunKeeps(labels: nat -> string, steps: seq<Step>, st: State)
    requires Apart(labels) && Reaches(labels, steps, st)
    ensures Inv(labels, st)
    decreases |steps|
  {
    if steps != [] {
      var before :| StepsTo(labels, before, Last(steps), st) && Reaches(labels, Front(steps), before);
      RunKeeps(labels, Front(steps), before);
      NextKeeps(labels, before, Last(steps));
    }
  }

  lemma NextKeepsUsed(labels: nat -> string, st: State, s: Step)
    requires Inv(labels, st) && UsedOk(labels, st)
    ensures UsedOk(labels, Next(labels, st, s))
  {
    SeenIs(labels, st);
  }

  lemma {:induction false} RunKeepsUsed(labels: nat -> string, steps: seq<Step>, st: State)
    requires Apart(labels) && Reaches(labels, steps, st)
    ensures UsedOk(labels, st)
    decreases |steps|
  {
    if steps != [] {
      var before :| StepsTo(labels, before, Last(steps), st) && Reaches(labels, Front(steps), before);
      RunKeeps(labels, Front(steps), before);
      RunKeepsUsed(labels, Front(steps), before);
      NextKeepsUsed(labels, before, Last(steps));
    }
  }

  /** Over any run: the key in service is in the token, at most one key is newer, no
      label was ever given to two keys, even after destruction, and no two installed certificates share a key. */
  lemma AnyRun(base: string, steps: seq<Step>, st: State)
    requires Reaches(Labels(base), steps, st)
    ensures st.cert.Some? ==>
              && st.installed != [] && Label(base, InService(st)) in st.token
              && st.cert == Some(st.token[Label(base, InService(st))])
              && forall g | g > InService(st) && Label(base, g) in st.token :: g == InService(st) + 1
    ensures AllDistinct(st.used) && AllDistinct(st.made) && |st.used| == |st.made|
    ensures forall i, j | 0 <= i < j < |st.installed| ::
              && 1 <= st.installed[i] <= |st.made| && 1 <= st.installed[j] <= |st.made|
              && st.made[st.installed[i] - 1] != st.made[st.installed[j] - 1]
  {
    LabelsApart(base);
    RunKeeps(Labels(base), steps, st);
    RunKeepsUsed(Labels(base), steps, st);
    forall i, j | 0 <= i < j < |st.used|
      ensures st.used[i] != st.used[j]
    {
      LabelSharedIff(base, i + 1, j + 1);
    }
    if st.cert.Some? {
      forall g | g > InService(st) && Label(base, g) in st.token
        ensures g == InService(st) + 1
      {
        LabelHolds(Labels(base), st, g);
      }
    }
  }

  // ---- What each step does ----

  /** A key was made that no certificate was installed for. */
  predicate KeyWaits(st: State)
  {
    st.made != [] && (st.installed == [] || InService(st) < |st.made|)
  }

  /** The certificate of generation `g`, the last made, is installed; or nothing is. */
  predicate Certifies(st: State, certified: bool, st': State)
    requires st.made != []
  {
    && st'.token == st.token && st'.made == st.made && st'.used == st.used
    && (if certified then st'.cert == Some(Last(st.made)) && st'.installed == st.installed + [|st.made|]
        else st'.cert == st.cert && st'.installed == st.installed)
  }

  /** A new key is generated under the next label. */
  predicate Makes(base: string, st: State, key: Bytes, st': State)
  {
    && st'.made == st.made + [key] && st'.used == st.used + [Label(base, |st.made| + 1)]
    && st'.token == st.token[Label(base, |st.made| + 1) := key] && st'.cert == st.cert && st'.installed == st.installed
  }

  lemma RetireIs(base: string, st: State, s: Step)
    requires Inv(Labels(base), st) && s.Retire?
    ensures Next(Labels(base), st, s)
         == if st.installed != [] && s.generation < InService(st) && s.confirmed && s.written
            then st.(token := st.token - {Label(base, s.generation)}) else st
  {
    SeenIs(Labels(base), st);
  }

  lemma WaitingIs(base: string, st: State, s: Step)
    requires Inv(Labels(base), st) && s.Enroll? && KeyWaits(st) && !(st.cert.Some? && s.usable)
    ensures Certifies(st, s.certified, Next(Labels(base), st, s))
  {
    SeenIs(Labels(base), st);
    assert Holds(Labels(base), st, |st.made|);
    assert AfterEnroll(Labels(base), st, s) == Install(Labels(base), st, |st.made|, s.certified);
  }

  lemma RenewalIs(base: string, st: State, s: Step)
    requires Inv(Labels(base), st) && s.Enroll? && !KeyWaits(st) && !(st.cert.Some? && s.usable)
    requires |st.made| != 64 && s.generates
    ensures var made := Generated(Labels(base), st, |st.made| + 1, s.key);
            Makes(base, st, s.key, made) && Certifies(made, s.certified, Next(Labels(base), st, s))
  {
    SeenIs(Labels(base), st);
    var made := Generated(Labels(base), st, |st.made| + 1, s.key);
    assert Next(Labels(base), st, s) == Install(Labels(base), made, |st.made| + 1, s.certified);
  }

  lemma NothingIs(base: string, st: State, s: Step)
    requires Inv(Labels(base), st) && s.Enroll?
    requires (st.cert.Some? && s.usable) || (!KeyWaits(st) && (|st.made| == 64 || !s.generates))
    ensures Next(Labels(base), st, s) == st
  {
    SeenIs(Labels(base), st);
  }

  /** Over any run, an enrolment changes nothing while the certificate can be used, or when a
      sixty-fifth key would be needed; it certifies the key that waits, if one does; else it
      generates the next one and certifies that. Retiring removes exactly the label of an
      older generation than the one in service, once confirmed and written. */
  lemma StepIs(base: string, steps: seq<Step>, st: State, s: Step)
    requires Reaches(Labels(base), steps, st)
    ensures s.Enroll? ==>
              var st' := Next(Labels(base), st, s);
              if st.cert.Some? && s.usable then st' == st
              else if KeyWaits(st) then Certifies(st, s.certified, st')
              else if |st.made| == 64 || !s.generates then st' == st
              else exists made :: Makes(base, st, s.key, made) && made.made != [] && Certifies(made, s.certified, st')
    ensures s.Retire? ==>
              Next(Labels(base), st, s)
              == if st.installed != [] && s.generation < InService(st) && s.confirmed && s.written
                 then st.(token := st.token - {Label(base, s.generation)}) else st
  {
    LabelsApart(base);
    RunKeeps(Labels(base), steps, st);
    if s.Retire? {
      RetireIs(base, st, s);
    } else if (st.cert.Some? && s.usable) || (!KeyWaits(st) && (|st.made| == 64 || !s.generates)) {
      NothingIs(base, st, s);
    } else if KeyWaits(st) {
      WaitingIs(base, st, s);
    } else {
      RenewalIs(base, st, s);
    }
  }

  // ---- What retiring generation 0 does ----

  /** The token holds the key of the certificate in the file. */
  predicate Serves(st: State)
  {
    exists name :: name in st.token && st.cert == Some(st.token[name])
  }

  /** Only one name holds the key in service. */
  lemma ServedUnderOneName(labels: nat -> string, st: State, name: string)
    requires Inv(labels, st) && st.installed != [] && name in st.token && st.cert == Some(st.token[name])
    ensures name == labels(InService(st))
  {
    var g :| Holds(labels, st, g) && name == labels(g);
    assert st.made[g - 1] == st.made[InService(st) - 1];
  }

  lemma RemovedServesIff(labels: nat -> string, st: State, name: string)
    requires Inv(labels, st) && st.installed != []
    ensures Serves(st.(token := st.token - {name})) <==> name != labels(InService(st))
  {
    var st' := st.(token := st.token - {name});
    if name != labels(InService(st)) {
      assert labels(InService(st)) in st'.token && st'.cert == Some(st'.token[labels(InService(st))]);
    } else if Serves(st') {
      var other :| other in st'.token && st'.cert == Some(st'.token[other]);
      ServedUnderOneName(labels, st, other);
      assert false;
    }
  }

  /** Of all destructions after any run, those that leave the certificate in service without
      its key are exactly the confirmed ones of generation 0 while generation 1 is in service. */
  lemma RetiresInServiceIff(base: string, steps: seq<Step>, st: State, s: Step)
    requires Reaches(Labels(base), steps, st) && st.cert.Some? && s.Retire?
    ensures st.installed != []
    ensures Serves(AfterRetire(Labels(base), st, s))
       <==> !(s.generation == 0 && InService(st) == 1 && s.confirmed && s.written)
  {
    var labels := Labels(base);
    LabelsApart(base);
    RunKeeps(labels, steps, st);
    SeenIs(labels, st);
    RemovedServesIff(labels, st, labels(s.generation));
    assert labels(InService(st)) in st.token && st.cert == Some(st.token[labels(InService(st))]);
  }

  lemma {:induction false} NothingSeen(labels: nat -> string, st: State, n: nat)
    requires st.token == map[]
    ensures FoundBy(labels, st.cert, Lookup(st.token), n) == Ok(Generations(None, None))
  {
    if n > 0 {
      NothingSeen(labels, st, n - 1);
    }
  }

  /** An enrolment on an empty token. */
  lemma EnrolsFirst(labels: nat -> string, st: State, key: Bytes)
    requires st.token == map[]
    ensures AfterEnroll(labels, st, Enroll(true, key, true, true))
         == State(map[labels(1) := key], Some(key), st.made + [key], st.used + [labels(1)], st.installed + [1])
  {
    NothingSeen(labels, st, MAX_GENERATIONS);
  }

  lemma ZeroGoes(labels: nat -> string, st: State, key: Bytes)
    requires Inv(labels, st) && st.installed == [1] && st.token == map[labels(1) := key]
    ensures AfterRetire(labels, st, Retire(0, true, true)) == st.(token := map[])
  {
    SeenIs(labels, st);
    assert labels(0) == labels(1);
    assert st.token - {labels(0)} == map[];
  }

  lemma OneStep(labels: nat -> string, s: Step)
    requires Sensible(labels, START, s)
    ensures Reaches(labels, [s], Next(labels, START, s))
  {
    assert Front([s]) == [] && Reaches(labels, Front([s]), START);
    assert StepsTo(labels, START, Last([s]), Next(labels, START, s));
  }

  /** After one enrolment on an empty token. */
  function One(labels: nat -> string, key: Bytes): State
  {
    State(map[labels(1) := key], Some(key), [key], [labels(1)], [1])
  }

  lemma OneIsReached(labels: nat -> string, key: Bytes)
    ensures Reaches(labels, [Enroll(true, key, true, true)], One(labels, key))
  {
    EnrolsFirst(labels, START, key);
    OneStep(labels, Enroll(true, key, true, true));
  }

  lemma OneLosesItsKey(labels: nat -> string, key: Bytes)
    requires Apart(labels)
    ensures AfterRetire(labels, One(labels, key), Retire(0, true, true)) == One(labels, key).(token := map[])
  {
    OneIsReached(labels, key);
    RunKeeps(labels, [Enroll(true, key, true, true)], One(labels, key));
    ZeroGoes(labels, One(labels, key), key);
  }

  /** That happens: one enrolment, then `retire-key --generation 0`, and the key in service is
      gone. The next enrolment gives a second key the name of the first. */
  lemma RetiringZeroAfterOne(base: string, key: Bytes, key': Bytes) returns (steps: seq<Step>, st: State)
    ensures Reaches(Labels(base), steps, st) && st.cert == Some(key) && Serves(st)
    ensures var gone := AfterRetire(Labels(base), st, Retire(0, true, true));
            && gone.cert == Some(key) && !Serves(gone)
            && AfterEnroll(Labels(base), gone, Enroll(true, key', true, true)).used == [base, base]
  {
    steps, st := [Enroll(true, key, true, true)], One(Labels(base), key);
    LabelsApart(base);
    OneIsReached(Labels(base), key);
    OneLosesItsKey(Labels(base), key);
    EnrolsFirst(Labels(base), st.(token := map[]), key');
    assert Labels(base)(1) == base && st.token[base] == key;
  }
}
