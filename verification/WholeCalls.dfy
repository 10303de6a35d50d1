/** When one call to execute runs its effect, told of the state it starts from and of what it
    is given. */
module WholeCalls {
  import opened Basics
  import opened Actions
  import opened Registry
  import opened SignedActions
  import opened SignedRuns
  import opened SignedTrace
  import opened LastAdmin

  /** The challenge can be taken, the assertion stands, and the signature reaches the number
      frozen, with signatories who all still stand. */
  ghost predicate SignsAs(st: State, x: Whole, k: Checked)
  {
    && HeldAs(st, x, k.held) && VerifiedAs(st, x, k)
    && Admissible(st.tables, k) && Count(st.tables, k) >= k.held.required && AllStand(st.tables, k)
  }

  ghost predicate HeldAs(st: State, x: Whole, h: Held)
  {
    && TakenInTime(st, Take(x.call, x.challenge, x.wanted, x.now), x.challenge, h.action, h.body)
    && h == Held(x.challenge, h.action, h.body, st.tables.actions[h.action].required, x.now)
  }

  ghost predicate VerifiedAs(st: State, x: Whole, k: Checked)
  {
    && k.credential == x.credential
    && VerifiedRightly(st, Verify(x.call, x.credential, x.valid, x.draw, x.target), x.credential, k.operator,
                       k.held.body, k.held.required)
  }

  ghost predicate Runs(st: State, x: Whole)
  {
    x.announceUp && exists k :: SignsAs(st, x, k)
  }

  lemma TakenIff(st: State, x: Whole)
    requires x.call !in st.calls
    ensures var t := Taken(st, x);
            && t.tables == st.tables && t.effects == st.effects && t.journal == st.journal && x.call in t.calls
            && (t.calls[x.call].Over? || (t.calls[x.call].Holding? && HeldAs(st, x, t.calls[x.call].held)))
            && (forall h | HeldAs(st, x, h) :: t.calls[x.call] == Holding(h))
  {
    TakeMeans(st, Take(x.call, x.challenge, x.wanted, x.now));
  }

  lemma VerifiedIff(st: State, x: Whole)
    requires x.call !in st.calls
    ensures var v := Verified(st, x);
            && v.tables == st.tables && v.effects == st.effects && v.journal == st.journal && x.call in v.calls
            && (v.calls[x.call].Over? || (v.calls[x.call].Ready? && HeldAs(st, x, v.calls[x.call].checked.held)
                                          && VerifiedAs(st, x, v.calls[x.call].checked)))
            && (forall k: Checked | HeldAs(st, x, k.held) && VerifiedAs(st, x, k) :: v.calls[x.call] == Ready(k))
  {
    var t := Taken(st, x);
    TakenIff(st, x);
    if t.calls[x.call].Holding? {
      VerifyMeans(t, Verify(x.call, x.credential, x.valid, x.draw, x.target), t.calls[x.call].held);
    }
  }

  lemma SettledIff(steps: seq<Step>, st: State, x: Whole)
    requires Reaches(steps, st) && x.call !in st.calls
    ensures var s := Settled(st, x);
            && s.effects == st.effects && x.call in s.calls
            && (s.calls[x.call].Over? || (s.calls[x.call].Marked? && SignsAs(st, x, s.calls[x.call].checked)))
            && (forall k | SignsAs(st, x, k) :: s.calls[x.call] == Marked(k))
  {
    var v := Verified(st, x);
    VerifiedIff(st, x);
    if v.calls[x.call].Ready? {
      var k := v.calls[x.call].checked;
      RunKeeps(steps, st);
      SettleIs(v, x.call, x.signUp);
      SettleIff(st.tables, st.journal, k, x.signUp);
    }
  }

  lemma FinishedIff(st: State, x: Whole)
    requires var s := Settled(st, x); x.call in s.calls && (s.calls[x.call].Over? || s.calls[x.call].Marked?)
    ensures var s, e := Settled(st, x), Executed(st, x);
            if s.calls[x.call].Marked? && x.announceUp
            then |e.effects| == |s.effects| + 1 && Last(e.effects).checked == s.calls[x.call].checked
            else e.effects == s.effects
  {
  }

  /** A call runs an effect exactly when its challenge can be taken in time and as expected, its
      assertion verified by a key in force of someone who may sign, for an action still possible,
      it reaches the number frozen with signatories who all still stand, and the journal takes
      the announcement. The effect is of that signature. */
  lemma RunsIff(steps: seq<Step>, st: State, x: Whole)
    requires Reaches(steps, st) && x.call !in st.calls
    ensures |Executed(st, x).effects| == |st.effects| + if Runs(st, x) then 1 else 0
    ensures Runs(st, x) ==> SignsAs(st, x, Last(Executed(st, x).effects).checked)
  {
    SettledIff(steps, st, x);
    FinishedIff(st, x);
  }
}
