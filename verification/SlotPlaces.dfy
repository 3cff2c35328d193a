/**
  The two accounts of a model's slots: the scheduler's count of cap places (internal/router/scheduler/
  fifo.go) and the slot table (internal/router/slotbind.go).  The cap is meant to keep a slot free for
  every request that is granted; here is when it does.
 */
module SlotPlaces {
  import opened Basics
  import opened GrantHandshake

  /** The slot table keeps a slot for it: it is bound, or it was cut and its slot still read busy. */
  predicate Occupies(r: Request) {
    r.bound || r.orphan
  }

  /** The readings stopped, so that its place was given up, and the table still keeps its slot. */
  predicate IsStranded(r: Request) {
    r.orphan && r.quiet
  }

  function Occupied(s: State, m: Model): set<Id> {
    set id | id in s.reqs && s.reqs[id].model == m && Occupies(s.reqs[id])
  }

  function Stranded(s: State, m: Model): set<Id> {
    set id | id in s.reqs && s.reqs[id].model == m && IsStranded(s.reqs[id])
  }

  /** It has a cap place, or is being handed one. */
  predicate HasClaim(a: Around, r: Request) {
    r.kind == Slotted && (Holds(r) || a.granting == Some(false))
  }

  function Claims(s: State, m: Model): set<Id> {
    set id | id in s.reqs && s.reqs[id].model == m && HasClaim(Seen(s, id), s.reqs[id])
  }

  // ----- One request -----

  /** A request that occupies a slot holds its cap place, unless the readings stopped: a cut
      request gives its place back only once its slot reads idle. */
  lemma OccupantHolds(r: Request, granting: bool, shutdown: bool)
    requires CallerInv(r, granting) && ServeInv(r, shutdown) && Occupies(r)
    ensures r.kind == Slotted && (Holds(r) || IsStranded(r))
  {
  }

  lemma ClaimComes(a: Around, step: Step, r: Request)
    requires Can(a, step, r) && CallerInv(r, a.granting.Some?) && ServeInv(r, a.shutdown)
    ensures After(a, step, r).model == r.model && After(a, step, r).kind == r.kind
    ensures Holds(After(a, step, r)) && r.kind == Slotted ==> HasClaim(a, r)
  {
    HoldsAfter(a, step, r);
    hide After, CallerInv, ServeInv, Can, GivesBack;
  }

  // ----- One step -----

  /** The step begins to hand a place of m to a slotted request. */
  predicate Hands(s: State, step: Step, m: Model)
    requires Enabled(s, step)
  {
    step.StartGrant? && !step.isError && s.reqs[step.id].model == m && s.reqs[step.id].kind == Slotted
  }

  lemma ClaimsAfter(s: State, step: Step, m: Model)
    requires Inv(s) && Enabled(s, step)
    ensures Claims(Next(s, step), m) <= Claims(s, m) + (if Hands(s, step, m) then {step.id} else {})
    ensures Hands(s, step, m) ==> Claims(s, m) <= Holders(s, m)
  {
    hide After, Enabled, Next, Can, CallerInv, ServeInv, Fresh, Holds;
    forall id | id in Claims(Next(s, step), m)
      ensures id in Claims(s, m) || (Hands(s, step, m) && id == step.id)
    {
      ClaimBefore(s, step, m, id);
    }
    if Hands(s, step, m) {
      LoopSteps(s, step);
    }
  }

  lemma ClaimBefore(s: State, step: Step, m: Model, id: Id)
    requires Inv(s) && Enabled(s, step) && id in Claims(Next(s, step), m)
    ensures id in Claims(s, m) || (Hands(s, step, m) && id == step.id)
  {
    NextAt(s, step, id);
    if Seen(Next(s, step), id).granting == Some(false) {
      GrantBegins(s, step, id);
    }
    hide After, Next, Enabled, Can, CallerInv, ServeInv, Fresh, Holds;
    if step.Arrive? && step.id == id {
      NewHoldsNothing(step.model, step.kind);
    } else if !step.Shutdown? && step.id == id {
      ClaimComes(Seen(s, id), step, s.reqs[id]);
    }
  }

  lemma GrantBegins(s: State, step: Step, id: Id)
    requires Enabled(s, step) && Seen(Next(s, step), id).granting == Some(false)
    ensures Seen(s, id).granting == Some(false) || (step.StartGrant? && !step.isError && step.id == id)
  {
    hide After, CountAfter, Can;
  }

  // ----- Every run -----

  /** Under a cap of n, and while the count stays right, at most n slotted requests have a place. */
  lemma {:induction false} ClaimsUnderCap(steps: seq<Step>, m: Model, n: nat)
    requires Runnable(steps) && !Stolen(steps) && Capped(steps, m, n)
    ensures |Claims(Run(steps), m)| <= n
  {
    if steps == [] {
      assert Claims(START, m) == {};
    } else {
      var front, last := steps[..|steps| - 1], steps[|steps| - 1];
      ClaimsUnderCap(front, m, n);
      Reachable(front);
      PlacesCountedRight(front);
      ClaimsAfter(Run(front), last, m);
      hide Next, Enabled, Inv, Claims, Holders, Count;
      var now, was := Claims(Run(steps), m), Claims(Run(front), m);
      if Hands(Run(front), last, m) {
        SmallerSet(was, Holders(Run(front), m));
        SmallerSet(now, was + {last.id});
      } else {
        SmallerSet(now, was);
      }
    }
  }

  lemma SmallerSet(a: set<Id>, b: set<Id>)
    requires a <= b
    ensures |a| <= |b|
  {
    assert b == a + (b - a);
  }

  /** The cap's promise to the slot table, in every run: if no place was stolen and slotted requests are
      granted only below n, then a request that has its place, or is being handed it, and no slot yet finds
      fewer than n slots occupied, not counting stranded ones. */
  lemma {:induction false} RoomForEveryGrant(steps: seq<Step>, m: Model, n: nat, id: Id)
    requires Runnable(steps) && !Stolen(steps) && Capped(steps, m, n)
    requires var s := Run(steps); id in Claims(s, m) && !Occupies(s.reqs[id])
    ensures var s := Run(steps); |Occupied(s, m)| < n + |Stranded(s, m)|
  {
    var s := Run(steps);
    ClaimsUnderCap(steps, m, n);
    Reachable(steps);
    forall o | o in Occupied(s, m)
      ensures o in Claims(s, m) - {id} || o in Stranded(s, m)
    {
      OccupantHolds(s.reqs[o], Seen(s, o).granting.Some?, s.shutdown);
    }
    hide Occupied, Stranded, Claims;
    SmallerSet(Occupied(s, m), (Claims(s, m) - {id}) + Stranded(s, m));
  }

  /** So `bind` finds a slot for it, wherever the others are, if no slot is stranded. */
  lemma {:induction false} SlotForEveryGrant(steps: seq<Step>, m: Model, n: nat, id: Id, slotOf: Id -> nat)
    requires Runnable(steps) && !Stolen(steps) && Capped(steps, m, n)
    requires var s := Run(steps); id in Claims(s, m) && !Occupies(s.reqs[id]) && Stranded(s, m) == {}
    ensures exists slot: nat :: slot < n && IsFree(slot, Occupied(Run(steps), m), slotOf)
  {
    RoomForEveryGrant(steps, m, n, id);
    OneIsFree(Occupied(Run(steps), m), slotOf, n);
  }

  ghost predicate IsFree(slot: nat, occupants: set<Id>, slotOf: Id -> nat) {
    forall o <- occupants :: slotOf(o) != slot
  }

  lemma {:induction false} OneIsFree(occupants: set<Id>, slotOf: Id -> nat, n: nat)
    requires |occupants| < n
    ensures exists slot: nat :: slot < n && IsFree(slot, occupants, slotOf)
  {
    if !IsFree(n - 1, occupants, slotOf) {
      var o :| o in occupants && slotOf(o) == n - 1;
      OneIsFree(occupants - {o}, slotOf, n - 1);
      var slot: nat :| slot < n - 1 && IsFree(slot, occupants - {o}, slotOf);
      assert IsFree(slot, occupants, slotOf);
    }
  }

  // ----- A slot that is stranded -----

  const CUT := SERVED.(ctxDone := true)
  const CUT_GONE := CUT.(phase := Left, bound := false, orphan := true, tail := Waiting(Done(false)))
  const GIVEN_UP := CUT_GONE.(tail := NoTail, quiet := true, finals := 1, given := 1)

  /** Request 0 is cut while its slot is busy; then the readings stop, and its place is given up. */
  const STRANDING := [CtxDone(0), Finish(0, true), PollerQuiet(0), TailSent(0)]

  lemma IsStrandedNow()
    ensures Leads(BOTH_SERVED + STRANDING, Beside(map[1 := SERVED], 0, GIVEN_UP, Idle, 1))
    ensures Fair(BOTH_SERVED + STRANDING)
  {
    BothServed();
    hide Fair, Leads, Runnable, Run, Next, Enabled, Beside;
    var rest, a := map[1 := SERVED], BOTH_SERVED;
    var sending := CUT_GONE.(tail := Sending(Done(false)), quiet := true);
    OneMore(rest, a, 0, SERVED, Idle, 2, CtxDone(0), CUT, Idle, 2);
    OneMore(rest, a + [CtxDone(0)], 0, CUT, Idle, 2, Finish(0, true), CUT_GONE, Idle, 2);
    OneMore(rest, a + [CtxDone(0)] + [Finish(0, true)], 0, CUT_GONE, Idle, 2, PollerQuiet(0), sending, Idle, 2);
    OneMore(rest, a + [CtxDone(0)] + [Finish(0, true)] + [PollerQuiet(0)], 0, sending, Idle, 2, TailSent(0), GIVEN_UP,
            Idle, 1);
    assert a + [CtxDone(0)] + [Finish(0, true)] + [PollerQuiet(0)] + [TailSent(0)] == a + STRANDING;
  }

  const THIRD := BOTH_SERVED + STRANDING + Admission(2) + [StartGrant(2, false)]

  /** Under a cap of 2, with both slots still in the table, a third request is granted and finds none. */
  lemma NoSlotForTheThird()
    ensures Fair(THIRD)
    ensures var s := Run(THIRD);
            && Occupied(s, 0) == {0, 1} && Stranded(s, 0) == {0}
            && 2 in Claims(s, 0) && !Occupies(s.reqs[2]) && Count(s.inFlight, 0) == 1
  {
    IsStrandedNow();
    hide Fair, Runnable, Run;
    var others := map[1 := SERVED][0 := GIVEN_UP];
    var steps := BOTH_SERVED + STRANDING;
    assert Beside(map[1 := SERVED], 0, GIVEN_UP, Idle, 1) == State(others, Idle, false, map[0 := 1]);
    GetsAdmitted(others, steps, 2, 1);
    var chosen := FRESH.(phase := AwaitGrant);
    OneMore(others, steps + Admission(2), 2, QUEUED, Idle, 1, StartGrant(2, false), chosen, Granting(2, false), 1);
    assert Leads(THIRD, Beside(others, 2, chosen, Granting(2, false), 1));
  }
}
