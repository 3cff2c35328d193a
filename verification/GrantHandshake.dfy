/**
  The handshake between a caller in ServeHTTP and the router's run loop (internal/router/base.go): how a
  request is offered, admitted, parked, granted or given up on, and how the end of its serving is
  reported, with the slot table's phantom release (internal/router/slotbind.go) running beside it.
  One step is one channel operation or one atomic action of a goroutine.  The scheduler is the
  environment: it may grant any request it admitted, once, or stay silent.  Of its state only the count
  of granted requests per model is kept (internal/router/scheduler/fifo.go:1072-1080, 603-628).
 */
module GrantHandshake {
  import opened Basics

  type Id = nat
  type Model = nat

  /** Where one attempt's goroutine is. */
  datatype Phase =
    | Offering            // select on handlerCh
    | AwaitAdmit
    | AwaitGrant
    | Pruning             // cancelParked: select on cancelCh
    | Serving             // inside trackedServe
    | Finishing(ev: Done) // sendServeDone of the final event
    | Left

  /** The final serve-done event. */
  datatype Done = Done(capReleased: bool)

  /** sendServeDoneWhenSlotIdle, for a request that was cut while its slot was busy. */
  datatype Tail = NoTail | Waiting(ev: Done) | Sending(ev: Done)

  /** The phantom release: launched by the slot table, then the compare-and-swap, then the send. */
  datatype Release = Unused | Launched | CapOnlySending | Used

  datatype Grant = NotGranted | GrantedError | GrantedHandler

  /** A slotted request is one that may be bound to a slot.  A status read counts as no work at all, and
      a slot-free request (count_tokens) counts but is not held back by the cap. */
  datatype Kind = StatusRead | SlotFree | Slotted

  datatype Request = Request(
    model: Model,
    kind: Kind,
    phase: Phase,
    ctxDone: bool,
    admit: Option<bool>,  // the buffered answer, not yet taken
    eligible: bool,       // the scheduler holds it and has not granted it
    grant: Grant,
    reported: Option<bool>,  // what the send of the grant told the scheduler: taken or not
    bound: bool,          // holds a slot in the slot table
    orphan: bool,         // was cut, and the slot table still keeps its slot for it
    quiet: bool,          // the readings of the slots stopped while it waited for its slot
    capReleased: bool,
    release: Release,
    tail: Tail,
    finals: nat,          // final events the run loop received
    capOnly: nat,         // release events the run loop received
    given: nat,           // how often the scheduler was told to take its cap place back
    dropped: nat,         // final events dropped by shutdown
    overtook: bool)       // its final event was built while a release was launched but had not run
  {
    predicate Counted() {
      kind != StatusRead
    }
  }

  datatype Loop = Idle | Granting(id: Id, isError: bool)

  /** `inFlight` counts the granted requests of each model; a missing entry is 0. */
  datatype State = State(reqs: map<Id, Request>, loop: Loop, shutdown: bool, inFlight: map<Model, nat>)

  datatype Step =
    | Arrive(id: Id, model: Model, kind: Kind)
    | Offer(id: Id, answer: Option<bool>)  // handlerCh received; OnRequest answers the admission
    | OfferGone(id: Id)
    | TakeAdmit(id: Id)
    | GiveUp(id: Id)
    | CtxGone(id: Id)
    | ShutGone(id: Id)
    | Pruned(id: Id)
    | StartGrant(id: Id, isError: bool)
    | TakeGrant(id: Id, binds: bool)
    | GrantLost(id: Id)
    | CtxDone(id: Id)                      // the client hangs up, or a preemption cancels
    | Phantom(id: Id)
    | ReleaseRuns(id: Id)
    | CapOnlySent(id: Id)
    | Finish(id: Id, orphaned: bool)
    | FinalSent(id: Id)
    | SlotIdle(id: Id)                     // a reading shows its orphan's slot idle
    | TailWakes(id: Id)                    // the orphan is closed, or the router shuts down
    | PollerQuiet(id: Id)                  // no fresh reading for slotObserveStale
    | TailSent(id: Id)
    | Shutdown

  function Fresh(model: Model, kind: Kind): Request {
    Request(model, kind, Offering, false, None, false, NotGranted, None, false, false, false, false, Unused, NoTail,
            0, 0, 0, 0, false)
  }

  const START := State(map[], Idle, false, map[])

  /** What one request sees around it: a grant under way for it (and whether that is an error), the run
      loop at its select, shutdown. */
  datatype Around = Around(granting: Option<bool>, idle: bool, shutdown: bool) {
    predicate Receiving() {
      idle && !shutdown
    }

    /** A send to the run loop ends: it is received, or shutdown lets the sender go. */
    predicate Sendable() {
      idle || shutdown
    }
  }

  function Near(id: Id, loop: Loop, shutdown: bool): Around {
    Around(if loop.Granting? && loop.id == id then Some(loop.isError) else None, loop == Idle, shutdown)
  }

  function Seen(s: State, id: Id): Around {
    Near(id, s.loop, s.shutdown)
  }

  predicate Parked(r: Request) {
    r.phase == AwaitAdmit || r.phase == AwaitGrant
  }

  /** A request can take this step. */
  predicate Can(a: Around, step: Step, r: Request) {
    match step
    case Arrive(_, _, _) => false
    case Offer(_, answer) => r.phase == Offering && a.Receiving() && (answer.None? ==> r.ctxDone)
    case OfferGone(_) => r.phase == Offering && (r.ctxDone || a.shutdown)
    case TakeAdmit(_) => r.phase == AwaitAdmit && r.admit.Some?
    case GiveUp(_) => Parked(r)
    case CtxGone(_) => Parked(r) && r.ctxDone
    case ShutGone(_) => Parked(r) && a.shutdown
    case Pruned(_) => r.phase == Pruning && a.Sendable()
    case StartGrant(_, _) => r.eligible && a.idle
    // only a slotted request that serves binds a slot
    case TakeGrant(_, binds) => r.phase == AwaitGrant && a.granting.Some?
        && (binds ==> r.kind == Slotted && a.granting == Some(false))
    case GrantLost(_) => a.granting.Some? && (r.ctxDone || a.shutdown)
    case CtxDone(_) => true
    case Phantom(_) => r.bound
    case ReleaseRuns(_) => r.release == Launched
    case CapOnlySent(_) => r.release == CapOnlySending && a.Sendable()
    case Finish(_, orphaned) => r.phase == Serving && (orphaned ==> r.bound && r.ctxDone)
    case FinalSent(_) => r.phase.Finishing? && a.Sendable()
    case SlotIdle(_) => r.orphan
    case TailWakes(_) => r.tail.Waiting? && (!r.orphan || a.shutdown)
    case PollerQuiet(_) => r.tail.Waiting?
    case TailSent(_) => r.tail.Sending? && a.Sendable()
    case Shutdown => false
  }

  /** ServeHTTP returns: its deferred reqCancel ends the request's context. */
  function Gone(r: Request): Request {
    r.(phase := Left, ctxDone := true)
  }

  /** The final event arrives at the scheduler, or shutdown drops it. */
  function Delivered(r: Request, ev: Done, received: bool): Request {
    if received then r.(finals := r.finals + 1, given := r.given + if r.Counted() && !ev.capReleased then 1 else 0)
    else r.(dropped := r.dropped + 1)
  }

  function CapOnlyDelivered(r: Request, received: bool): Request {
    if received then r.(release := Used, capOnly := r.capOnly + 1, given := r.given + 1)
    else r.(release := Used)
  }

  /** The deferred calls of trackedServe: unbind, then the final event built and sent. */
  function Finished(r: Request, orphaned: bool): Request {
    var ev := Done(r.capReleased);
    var late := r.(bound := false, overtook := r.release == Launched);
    if orphaned then Gone(late.(tail := Waiting(ev), orphan := true)) else late.(phase := Finishing(ev))
  }

  /** What a step does to the request that takes it. */
  function After(a: Around, step: Step, r: Request): Request
    requires Can(a, step, r)
  {
    match step
    case Arrive(_, _, _) => r
    case Offer(_, answer) => r.(phase := AwaitAdmit, admit := answer, eligible := answer == Some(true))
    case OfferGone(_) => Gone(r)
    case TakeAdmit(_) => if r.admit.value then r.(phase := AwaitGrant, admit := None) else Gone(r.(admit := None))
    case GiveUp(_) => r.(phase := Pruning, ctxDone := true)
    case CtxGone(_) => r.(phase := Pruning)
    case ShutGone(_) => Gone(r)
    case Pruned(_) => if a.Receiving() then Gone(r.(eligible := false)) else Gone(r)
    case StartGrant(_, _) => r.(eligible := false)
    case TakeGrant(_, binds) =>
      if a.granting.value then Gone(r.(grant := GrantedError, reported := Some(true)))
      else r.(phase := Serving, grant := GrantedHandler, reported := Some(true), bound := binds)
    case GrantLost(_) => r.(reported := Some(false))
    case CtxDone(_) => r.(ctxDone := true)
    case Phantom(_) => r.(bound := false, release := Launched)
    case ReleaseRuns(_) => if r.capReleased then r.(release := Used)
        else r.(capReleased := true, release := CapOnlySending)
    case CapOnlySent(_) => CapOnlyDelivered(r, a.Receiving())
    case Finish(_, orphaned) => Finished(r, orphaned)
    case FinalSent(_) => Gone(Delivered(r, r.phase.ev, a.Receiving()))
    case SlotIdle(_) => r.(orphan := false)
    case TailWakes(_) => r.(tail := Sending(r.tail.ev))
    case PollerQuiet(_) => r.(tail := Sending(r.tail.ev), quiet := true)
    case TailSent(_) => Delivered(r, r.tail.ev, a.Receiving()).(tail := NoTail)
    case Shutdown => r
  }

  // ----- The scheduler's count -----

  function Count(inFlight: map<Model, nat>, m: Model): nat {
    if m in inFlight then inFlight[m] else 0
  }

  /** OnServeDone with a release event: the count never goes below 0. */
  function CountReleased(count: nat): nat {
    if count > 0 then count - 1 else count
  }

  /** OnServeDone with a final event: an entry at 0 or below is deleted. */
  function CountDone(count: nat, capReleased: bool): nat {
    var left := if capReleased then count else count - 1;
    if left <= 0 then 0 else left
  }

  function CountAfter(a: Around, step: Step, r: Request, count: nat): nat
    requires Can(a, step, r)
  {
    if !r.Counted() then count
    else
      match step
      case TakeGrant(_, _) => if a.granting == Some(false) then count + 1 else count
      case CapOnlySent(_) => if a.Receiving() then CountReleased(count) else count
      case FinalSent(_) => if a.Receiving() then CountDone(count, r.phase.ev.capReleased) else count
      case TailSent(_) => if a.Receiving() then CountDone(count, r.tail.ev.capReleased) else count
      case _ => count
  }

  predicate Enabled(s: State, step: Step) {
    match step
    case Arrive(id, _, _) => id !in s.reqs
    case Shutdown => s.loop == Idle && !s.shutdown
    case _ => step.id in s.reqs && Can(Seen(s, step.id), step, s.reqs[step.id])
  }

  function LoopAfter(loop: Loop, step: Step): Loop {
    match step
    case StartGrant(id, isError) => Granting(id, isError)
    case TakeGrant(_, _) => Idle
    case GrantLost(_) => Idle
    case _ => loop
  }

  function Next(s: State, step: Step): State
    requires Enabled(s, step)
  {
    match step
    case Arrive(id, model, kind) => s.(reqs := s.reqs[id := Fresh(model, kind)])
    case Shutdown => s.(shutdown := true)
    case _ =>
      var r, a := s.reqs[step.id], Seen(s, step.id);
      s.(reqs := s.reqs[step.id := After(a, step, r)],
         loop := LoopAfter(s.loop, step),
         inFlight := s.inFlight[r.model := CountAfter(a, step, r, Count(s.inFlight, r.model))])
  }

  /** Each step was possible when it was taken. */
  predicate Runnable(steps: seq<Step>)
    decreases |steps|, 0
  {
    |steps| == 0 || (Runnable(steps[..|steps| - 1]) && Enabled(Run(steps[..|steps| - 1]), steps[|steps| - 1]))
  }

  /** The state after a sequence of steps. */
  function Run(steps: seq<Step>): State
    requires Runnable(steps)
    decreases |steps|, 1
  {
    if |steps| == 0 then START else Next(Run(steps[..|steps| - 1]), steps[|steps| - 1])
  }

  // ----- What holds in every reachable state -----

  /** Final events still on their way. */
  function Pending(r: Request): nat {
    (if r.phase == Serving || r.phase.Finishing? then 1 else 0) + (if r.tail == NoTail then 0 else 1)
  }

  /** A final event says whether the cap place was already given back when it was built. */
  predicate Says(r: Request, ev: Done) {
    ev.capReleased <==> r.capReleased && !r.overtook
  }

  /** Admission, grant and leaving. */
  predicate CallerInv(r: Request, granting: bool) {
    // every way out of ServeHTTP leaves the context done
    && (r.phase == Pruning || r.phase == Left ==> r.ctxDone)
    // the scheduler grants only what it admitted, once; and the admission is there to take
    && (r.eligible || granting ==> r.phase != Offering && r.grant == NotGranted)
    && !(r.eligible && granting)
    // the scheduler hears once, and the truth, whether its grant was taken
    && (r.reported == Some(true) <==> r.grant != NotGranted)
    && (r.reported.Some? ==> !r.eligible && !granting && r.phase != Offering)
    && (r.phase == AwaitAdmit && (r.eligible || granting) ==> r.admit == Some(true))
    && (r.phase == Offering || Parked(r) || r.phase == Pruning ==> r.grant == NotGranted)
    && (r.phase == Serving || r.phase.Finishing? ==> r.grant == GrantedHandler)
  }

  /** One final event for each handler granted; the release fires once at most. */
  predicate ServeInv(r: Request, shutdown: bool) {
    && (r.tail != NoTail ==> r.phase == Left)
    && r.finals + r.dropped + Pending(r) == (if r.grant == GrantedHandler then 1 else 0)
    && (r.dropped > 0 ==> shutdown)
    && (r.phase.Finishing? ==> Says(r, r.phase.ev)) && (r.tail != NoTail ==> Says(r, r.tail.ev))
    && (r.bound ==> r.phase == Serving && r.release == Unused && r.kind == Slotted)
    && (r.orphan ==> r.phase == Left && r.release == Unused && r.kind == Slotted && r.grant == GrantedHandler)
    // a cut request waits for its slot, unless the readings stop
    && (r.orphan && !r.quiet ==> r.finals == 0 && (r.tail.Sending? ==> shutdown))
    && (r.release != Unused ==> r.grant == GrantedHandler && r.Counted())
    && (r.capReleased <==> r.release == CapOnlySending || r.release == Used)
    && r.capOnly <= 1 && (r.capOnly == 1 ==> r.release == Used) && (r.release == Used && r.capOnly == 0 ==> shutdown)
    && (r.overtook ==> r.release != Unused && r.phase != Serving)
    // after serving, a release still launched has been overtaken
    && (r.release == Launched && r.phase != Serving ==> r.overtook)
    && r.given == (if !r.Counted() then 0 else r.capOnly + (if r.capReleased && !r.overtook then 0 else r.finals))
  }

  predicate Inv(s: State) {
    && (s.loop.Granting? ==> s.loop.id in s.reqs)
    && forall id <- s.reqs :: CallerInv(s.reqs[id], Seen(s, id).granting.Some?) && ServeInv(s.reqs[id], s.shutdown)
  }

  /** Whether a grant is under way for a request after it took a step. */
  predicate GrantingAfter(a: Around, step: Step) {
    step.StartGrant? || (a.granting.Some? && !step.TakeGrant? && !step.GrantLost?)
  }

  lemma StepKeepsCaller(a: Around, step: Step, r: Request)
    requires Can(a, step, r) && CallerInv(r, a.granting.Some?) && (a.idle ==> a.granting.None?)
    ensures CallerInv(After(a, step, r), GrantingAfter(a, step))
  {
    hide CallerInv, After, Can;
    match step {
      case Offer(_, _) => AdmitKeepsCaller(a, step, r);
      case OfferGone(_) => AdmitKeepsCaller(a, step, r);
      case TakeAdmit(_) => AdmitKeepsCaller(a, step, r);
      case GiveUp(_) => LeavingKeepsCaller(a, step, r);
      case CtxGone(_) => LeavingKeepsCaller(a, step, r);
      case ShutGone(_) => LeavingKeepsCaller(a, step, r);
      case Pruned(_) => LeavingKeepsCaller(a, step, r);
      case StartGrant(_, _) => GrantKeepsCaller(a, step, r);
      case TakeGrant(_, _) => GrantKeepsCaller(a, step, r);
      case GrantLost(_) => GrantKeepsCaller(a, step, r);
      case _ => ServingKeepsCaller(a, step, r);
    }
  }

  lemma AdmitKeepsCaller(a: Around, step: Step, r: Request)
    requires Can(a, step, r) && CallerInv(r, a.granting.Some?) && (a.idle ==> a.granting.None?)
    requires step.Offer? || step.OfferGone? || step.TakeAdmit?
    ensures CallerInv(After(a, step, r), GrantingAfter(a, step))
  {
  }

  lemma LeavingKeepsCaller(a: Around, step: Step, r: Request)
    requires Can(a, step, r) && CallerInv(r, a.granting.Some?) && (a.idle ==> a.granting.None?)
    requires step.GiveUp? || step.CtxGone? || step.ShutGone? || step.Pruned?
    ensures CallerInv(After(a, step, r), GrantingAfter(a, step))
  {
  }

  lemma GrantKeepsCaller(a: Around, step: Step, r: Request)
    requires Can(a, step, r) && CallerInv(r, a.granting.Some?) && (a.idle ==> a.granting.None?)
    requires step.StartGrant? || step.TakeGrant? || step.GrantLost?
    ensures CallerInv(After(a, step, r), GrantingAfter(a, step))
  {
  }

  predicate IsServing(step: Step) {
    || step.CtxDone? || step.Phantom? || step.ReleaseRuns? || step.CapOnlySent? || step.Finish? || step.FinalSent?
    || step.SlotIdle? || step.TailWakes? || step.PollerQuiet? || step.TailSent? || step.Arrive? || step.Shutdown?
  }

  lemma ServingKeepsCaller(a: Around, step: Step, r: Request)
    requires Can(a, step, r) && CallerInv(r, a.granting.Some?) && (a.idle ==> a.granting.None?)
    requires IsServing(step)
    ensures CallerInv(After(a, step, r), GrantingAfter(a, step))
  {
  }

  lemma StepKeepsServe(a: Around, step: Step, r: Request)
    requires Can(a, step, r) && CallerInv(r, a.granting.Some?) && ServeInv(r, a.shutdown)
    ensures ServeInv(After(a, step, r), a.shutdown)
  {
    hide ServeInv, After, CallerInv, Can;
    match step {
      case Phantom(_) => ReleaseKeepsServe(a, step, r);
      case ReleaseRuns(_) => ReleaseKeepsServe(a, step, r);
      case CapOnlySent(_) => ReleaseKeepsServe(a, step, r);
      case Finish(_, _) => FinishKeepsServe(a, step, r);
      case FinalSent(_) => FinalKeepsServe(a, step, r);
      case SlotIdle(_) => FinalKeepsServe(a, step, r);
      case TailWakes(_) => FinalKeepsServe(a, step, r);
      case PollerQuiet(_) => FinalKeepsServe(a, step, r);
      case TailSent(_) => FinalKeepsServe(a, step, r);
      case Offer(_, _) => AdmitKeepsServe(a, step, r);
      case OfferGone(_) => AdmitKeepsServe(a, step, r);
      case TakeAdmit(_) => AdmitKeepsServe(a, step, r);
      case GiveUp(_) => LeavingKeepsServe(a, step, r);
      case CtxGone(_) => LeavingKeepsServe(a, step, r);
      case ShutGone(_) => LeavingKeepsServe(a, step, r);
      case Pruned(_) => LeavingKeepsServe(a, step, r);
      case _ => GrantKeepsServe(a, step, r);
    }
  }

  lemma ReleaseKeepsServe(a: Around, step: Step, r: Request)
    requires Can(a, step, r) && CallerInv(r, a.granting.Some?) && ServeInv(r, a.shutdown)
    requires step.Phantom? || step.ReleaseRuns? || step.CapOnlySent?
    ensures ServeInv(After(a, step, r), a.shutdown)
  {
  }

  lemma FinishKeepsServe(a: Around, step: Step, r: Request)
    requires Can(a, step, r) && CallerInv(r, a.granting.Some?) && ServeInv(r, a.shutdown) && step.Finish?
    ensures ServeInv(After(a, step, r), a.shutdown)
  {
  }

  lemma FinalKeepsServe(a: Around, step: Step, r: Request)
    requires Can(a, step, r) && CallerInv(r, a.granting.Some?) && ServeInv(r, a.shutdown)
    requires step.FinalSent? || step.SlotIdle? || step.TailWakes? || step.PollerQuiet? || step.TailSent?
    ensures ServeInv(After(a, step, r), a.shutdown)
  {
  }

  lemma AdmitKeepsServe(a: Around, step: Step, r: Request)
    requires Can(a, step, r) && CallerInv(r, a.granting.Some?) && ServeInv(r, a.shutdown)
    requires step.Offer? || step.OfferGone? || step.TakeAdmit?
    ensures ServeInv(After(a, step, r), a.shutdown)
  {
  }

  lemma LeavingKeepsServe(a: Around, step: Step, r: Request)
    requires Can(a, step, r) && CallerInv(r, a.granting.Some?) && ServeInv(r, a.shutdown)
    requires step.GiveUp? || step.CtxGone? || step.ShutGone? || step.Pruned?
    ensures ServeInv(After(a, step, r), a.shutdown)
  {
  }

  lemma GrantKeepsServe(a: Around, step: Step, r: Request)
    requires Can(a, step, r) && CallerInv(r, a.granting.Some?) && ServeInv(r, a.shutdown)
    requires step.StartGrant? || step.TakeGrant? || step.GrantLost? || step.CtxDone? || step.Arrive? || step.Shutdown?
    ensures ServeInv(After(a, step, r), a.shutdown)
  {
  }

  /** What a step leaves of request id, and whether a grant is under way for it. */
  lemma NextAt(s: State, step: Step, id: Id)
    requires Enabled(s, step) && (s.loop.Granting? ==> s.loop.id in s.reqs)
    ensures var t := Next(s, step);
            && (step.Arrive? && step.id == id ==>
                  && id !in s.reqs && id in t.reqs && t.reqs[id] == Fresh(step.model, step.kind)
                  && Seen(t, id).granting.None?)
            && (!step.Arrive? && !step.Shutdown? && step.id == id ==>
                  && id in s.reqs && id in t.reqs && Can(Seen(s, id), step, s.reqs[id])
                  && t.reqs[id] == After(Seen(s, id), step, s.reqs[id])
                  && (Seen(t, id).granting.Some? <==> GrantingAfter(Seen(s, id), step)))
            && (step.Shutdown? || step.id != id ==>
                  && (id in t.reqs <==> id in s.reqs) && (id in s.reqs ==> t.reqs[id] == s.reqs[id])
                  && Seen(t, id).granting == Seen(s, id).granting)
  {
    hide After, CountAfter, Fresh, Can;
    LoopSteps(s, step);
  }

  lemma LoopSteps(s: State, step: Step)
    requires Enabled(s, step)
    ensures step.StartGrant? ==> s.loop.Idle?
    ensures step.TakeGrant? || step.GrantLost? ==> s.loop.Granting? && s.loop.id == step.id
  {
  }

  lemma StepKeepsInv(s: State, step: Step)
    requires Inv(s) && Enabled(s, step)
    ensures Inv(Next(s, step))
  {
    var t := Next(s, step);
    LoopKnown(s, step);
    assert t.shutdown == (s.shutdown || step.Shutdown?);
    assert step.Shutdown? ==> !s.shutdown;
    hide CallerInv, ServeInv, After, Next, Enabled, Can, Fresh;
    forall id | id in t.reqs
      ensures CallerInv(t.reqs[id], Seen(t, id).granting.Some?) && ServeInv(t.reqs[id], t.shutdown)
    {
      NextAt(s, step, id);
      if step.Shutdown? {
        ShutdownKeepsServe(s.reqs[id]);
      } else if step.Arrive? && id == step.id {
        FreshInv(step.model, step.kind);
      } else if id == step.id {
        StepKeepsCaller(Seen(s, id), step, s.reqs[id]);
        StepKeepsServe(Seen(s, id), step, s.reqs[id]);
      }
    }
  }

  lemma LoopKnown(s: State, step: Step)
    requires Enabled(s, step) && (s.loop.Granting? ==> s.loop.id in s.reqs)
    ensures Next(s, step).loop.Granting? ==> Next(s, step).loop.id in Next(s, step).reqs
  {
    hide After, CountAfter;
  }

  lemma FreshInv(model: Model, kind: Kind)
    ensures CallerInv(Fresh(model, kind), false) && forall down :: ServeInv(Fresh(model, kind), down)
  {
  }

  lemma ShutdownKeepsServe(r: Request)
    requires ServeInv(r, false)
    ensures ServeInv(r, true)
  {
  }

  lemma {:induction false} Reachable(steps: seq<Step>)
    requires Runnable(steps)
    ensures Inv(Run(steps))
  {
    if steps != [] {
      Reachable(steps[..|steps| - 1]);
      StepKeepsInv(Run(steps[..|steps| - 1]), steps[|steps| - 1]);
    }
  }

  // ----- What the handshake promises -----

  /** A caller that left, or is about to, was granted or has a context that is done: a grant that comes
      too late for it cannot land and cannot wait. */
  lemma {:induction false} NobodyLeavesSilently(steps: seq<Step>, id: Id)
    requires Runnable(steps) && id in Run(steps).reqs
    ensures var r := Run(steps).reqs[id];
            (r.phase == Pruning || r.phase == Left ==> r.ctxDone) &&
            (r.phase == Pruning ==> r.grant == NotGranted)
  {
    Reachable(steps);
  }

  /** The next step of a blocked grant: the caller's own, or the end of the send. */
  function Unblock(s: State): Step
    requires s.loop.Granting? && s.loop.id in s.reqs
  {
    var r := s.reqs[s.loop.id];
    if r.ctxDone || s.shutdown then GrantLost(s.loop.id)
    else if r.phase == AwaitAdmit then TakeAdmit(s.loop.id)
    else TakeGrant(s.loop.id, false)
  }

  /** The caller has its admission still to take. */
  predicate Admitting(r: Request, shutdown: bool) {
    r.phase == AwaitAdmit && !r.ctxDone && !shutdown
  }

  /** How many such steps a grant still needs. */
  function Blocked(s: State): nat {
    if s.loop == Idle then 0
    else if s.loop.id in s.reqs && Admitting(s.reqs[s.loop.id], s.shutdown) then 2
    else 1
  }

  /** A grant never blocks the run loop for good: within two steps, none of them the loop's or the
      scheduler's to take, it ends; and no other step puts that off. */
  lemma {:induction false} GrantEnds(steps: seq<Step>)
    requires Runnable(steps) && Run(steps).loop.Granting?
    ensures var s := Run(steps);
            && s.loop.id in s.reqs && Enabled(s, Unblock(s))
            && Blocked(Next(s, Unblock(s))) < Blocked(s) <= 2
            && forall step :: Enabled(s, step) ==> Blocked(Next(s, step)) <= Blocked(s)
  {
    Reachable(steps);
    var s := Run(steps);
    CallerAsked(s);
    UnblockHelps(s);
    hide Enabled, Next, Blocked, Unblock;
    forall step | Enabled(s, step)
      ensures Blocked(Next(s, step)) <= Blocked(s)
    {
      NothingPutsOff(s, step);
    }
  }

  lemma CallerAsked(s: State)
    requires Inv(s) && s.loop.Granting?
    ensures s.loop.id in s.reqs && CallerInv(s.reqs[s.loop.id], true)
  {
    hide CallerInv, ServeInv;
    assert Seen(s, s.loop.id).granting.Some?;
  }

  lemma UnblockHelps(s: State)
    requires s.loop.Granting? && s.loop.id in s.reqs && CallerInv(s.reqs[s.loop.id], true)
    ensures Enabled(s, Unblock(s)) && Blocked(Next(s, Unblock(s))) < Blocked(s) <= 2
  {
    hide CountAfter;
    var r := s.reqs[s.loop.id];
    assert r.phase == AwaitAdmit || r.phase == AwaitGrant || r.ctxDone;
  }

  lemma NothingPutsOff(s: State, step: Step)
    requires s.loop.Granting? && s.loop.id in s.reqs && CallerInv(s.reqs[s.loop.id], true) && Enabled(s, step)
    ensures Blocked(Next(s, step)) <= Blocked(s)
  {
    var id, t := s.loop.id, Next(s, step);
    NextAt(s, step, id);
    LoopGoesOn(s, step);
    hide Enabled, Next, After, CallerInv;
    if !step.Arrive? && !step.Shutdown? && step.id == id {
      AdmittingStays(Seen(s, id), step, s.reqs[id]);
    }
  }

  lemma LoopGoesOn(s: State, step: Step)
    requires s.loop.Granting? && Enabled(s, step)
    ensures Next(s, step).loop == s.loop || Next(s, step).loop == Idle
    ensures s.shutdown ==> Next(s, step).shutdown
  {
    hide After, CountAfter;
  }

  lemma AdmittingStays(a: Around, step: Step, r: Request)
    requires Can(a, step, r) && CallerInv(r, true)
    ensures forall down :: Admitting(After(a, step, r), down) ==> Admitting(r, down)
  {
  }

  /** What a grant tells the scheduler is true: taken means that the caller received it, and lost that it
      has received nothing and never will, for the scheduler has no second grant for it.  So a request
      that was granted a handler was reported taken. */
  lemma {:induction false} GrantIsTaken(steps: seq<Step>, id: Id)
    requires Runnable(steps) && id in Run(steps).reqs
    ensures var s := Run(steps); var r := s.reqs[id];
            && (r.reported == Some(true) <==> r.grant != NotGranted)
            && (r.reported == Some(false) ==>
                  && r.grant == NotGranted && (forall isError :: !Enabled(s, StartGrant(id, isError)))
                  && forall binds :: !Enabled(s, TakeGrant(id, binds)))
  {
    Reachable(steps);
    var s := Run(steps);
    if s.reqs[id].reported.Some? {
      GrantedOnce(Seen(s, id), s.reqs[id], id);
    }
  }

  lemma GrantedOnce(a: Around, r: Request, id: Id)
    requires CallerInv(r, a.granting.Some?) && r.reported.Some?
    ensures forall isError :: !Can(a, StartGrant(id, isError), r)
    ensures forall binds :: !Can(a, TakeGrant(id, binds), r)
  {
  }

  // ----- Whoever walks away -----

  /** Nothing is started for a caller that left: unless the router is shutting down, the scheduler no
      longer holds its request, so that it cannot be granted. */
  lemma {:induction false} NothingForTheGone(steps: seq<Step>, id: Id)
    requires Runnable(steps) && id in Run(steps).reqs && !Run(steps).shutdown && Run(steps).reqs[id].phase == Left
    ensures !Run(steps).reqs[id].eligible && forall isError :: !Enabled(Run(steps), StartGrant(id, isError))
  {
    LeftIsPruned(steps, id);
    hide Run, Runnable;
  }

  lemma {:induction false} LeftIsPruned(steps: seq<Step>, id: Id)
    requires Runnable(steps) && id in Run(steps).reqs && !Run(steps).shutdown && Run(steps).reqs[id].phase == Left
    ensures !Run(steps).reqs[id].eligible
  {
    hide Inv, Next, Enabled;
    var front, last := steps[..|steps| - 1], steps[|steps| - 1];
    Reachable(front);
    ShutdownStays(Run(front), last);
    if id in Run(front).reqs && Run(front).reqs[id].phase == Left {
      LeftIsPruned(front, id);
    }
    LeavesPruned(Run(front), last, id);
  }

  lemma ShutdownStays(s: State, step: Step)
    requires Enabled(s, step)
    ensures s.shutdown ==> Next(s, step).shutdown
  {
    hide After, CountAfter;
  }

  lemma LeavesPruned(s: State, step: Step, id: Id)
    requires Inv(s) && Enabled(s, step) && id in Next(s, step).reqs && !Next(s, step).shutdown
    requires id in s.reqs && s.reqs[id].phase == Left ==> !s.reqs[id].eligible
    ensures Next(s, step).reqs[id].phase == Left ==> !Next(s, step).reqs[id].eligible
  {
    NextAt(s, step, id);
    assert !s.shutdown;
    hide After, Next, Enabled, Can, CallerInv, ServeInv;
    if !step.Shutdown? && !step.Arrive? && step.id == id {
      LeavingIsPruned(Seen(s, id), step, s.reqs[id]);
    }
  }

  lemma LeavingIsPruned(a: Around, step: Step, r: Request)
    requires Can(a, step, r) && CallerInv(r, a.granting.Some?) && !a.shutdown && (r.phase == Left ==> !r.eligible)
    ensures After(a, step, r).phase == Left ==> !After(a, step, r).eligible
  {
    hide After, CallerInv, Can;
    if step.Offer? || step.OfferGone? || step.TakeAdmit? || step.GiveUp? || step.CtxGone? || step.ShutGone? {
      CallerIsPruned(a, step, r);
    } else if step.Pruned? || step.StartGrant? || step.TakeGrant? || step.GrantLost? {
      LeaverIsPruned(a, step, r);
    } else {
      ServedIsPruned(a, step, r);
    }
  }

  lemma CallerIsPruned(a: Around, step: Step, r: Request)
    requires Can(a, step, r) && CallerInv(r, a.granting.Some?) && !a.shutdown && (r.phase == Left ==> !r.eligible)
    requires step.Offer? || step.OfferGone? || step.TakeAdmit? || step.GiveUp? || step.CtxGone? || step.ShutGone?
    ensures After(a, step, r).phase == Left ==> !After(a, step, r).eligible
  {
  }

  lemma LeaverIsPruned(a: Around, step: Step, r: Request)
    requires Can(a, step, r) && CallerInv(r, a.granting.Some?) && !a.shutdown && (r.phase == Left ==> !r.eligible)
    requires step.Pruned? || step.StartGrant? || step.TakeGrant? || step.GrantLost?
    ensures After(a, step, r).phase == Left ==> !After(a, step, r).eligible
  {
  }

  lemma ServedIsPruned(a: Around, step: Step, r: Request)
    requires Can(a, step, r) && CallerInv(r, a.granting.Some?) && (r.phase == Left ==> !r.eligible)
    requires IsServing(step)
    ensures After(a, step, r).phase == Left ==> !After(a, step, r).eligible
  {
    ServingKeepsEligible(a, step, r);
  }

  /** Only the end of its serving makes such a request leave. */
  lemma ServingKeepsEligible(a: Around, step: Step, r: Request)
    requires Can(a, step, r) && IsServing(step)
    ensures After(a, step, r).eligible == r.eligible
    ensures After(a, step, r).phase == Left ==> r.phase == Left || r.phase == Serving || r.phase.Finishing?
  {
    match step {
      case Finish(_, _) =>
      case FinalSent(_) =>
      case TailSent(_) =>
      case CapOnlySent(_) =>
      case ReleaseRuns(_) =>
      case _ =>
    }
  }

  /** Nothing of the request is still running. */
  predicate Settled(r: Request) {
    r.phase == Left && r.tail == NoTail && (r.release == Unused || r.release == Used)
  }

  /** Each handler granted leads to exactly one final event, and to one release event if the slot table
      let it go, unless shutdown drops them. */
  lemma {:induction false} OneFinalEach(steps: seq<Step>, id: Id)
    requires Runnable(steps) && id in Run(steps).reqs
    ensures var s := Run(steps); var r := s.reqs[id];
            && r.finals <= 1 && r.capOnly <= 1
            && (r.grant != GrantedHandler ==> r.finals == 0 && r.capOnly == 0)
            && (r.grant == GrantedHandler && Settled(r) && !s.shutdown ==>
                  r.finals == 1 && r.capOnly == if r.release == Used then 1 else 0)
  {
    Reachable(steps);
  }

  // ----- The cap place -----

  /** The scheduler is told once to take its place back if and only if its final event was not built
      while a release had been launched and not run; otherwise it is told twice. */
  lemma {:induction false} ToldOnce(steps: seq<Step>, id: Id)
    requires Runnable(steps) && id in Run(steps).reqs && !Run(steps).shutdown
    requires var r := Run(steps).reqs[id]; r.grant == GrantedHandler && r.Counted() && Settled(r)
    ensures Run(steps).reqs[id].given == if Overtaken(steps, id) then 2 else 1
  {
    Reachable(steps);
    OvertookMeans(steps, id);
  }

  /** It was granted, counts, and has not given its place back. */
  predicate Holds(r: Request) {
    r.Counted() && r.grant == GrantedHandler && r.given == 0
  }

  ghost function Holders(s: State, m: Model): set<Id> {
    set id | id in s.reqs && s.reqs[id].model == m && Holds(s.reqs[id])
  }

  /** The scheduler's counts are the numbers of places held. */
  ghost predicate CountsRight(s: State) {
    forall m :: Count(s.inFlight, m) == |Holders(s, m)|
  }

  /** The event this step delivers tells the scheduler to take the place back. */
  predicate GivesBack(a: Around, step: Step, r: Request)
    requires Can(a, step, r)
  {
    && a.Receiving() && r.Counted()
    && (step.CapOnlySent? || (step.FinalSent? && !r.phase.ev.capReleased) || (step.TailSent? && !r.tail.ev.capReleased))
  }

  /** A second give-back by the same request arrives while another request of its model holds a place. */
  ghost predicate Steals(s: State, step: Step)
    requires Enabled(s, step)
  {
    && !step.Arrive? && !step.Shutdown?
    && var r := s.reqs[step.id];
       && GivesBack(Seen(s, step.id), step, r) && r.given > 0
       && exists other <- Holders(s, r.model) :: other != step.id
  }

  ghost predicate Stolen(steps: seq<Step>)
    requires Runnable(steps)
    decreases |steps|
  {
    steps != [] && (Stolen(steps[..|steps| - 1]) || Steals(Run(steps[..|steps| - 1]), steps[|steps| - 1]))
  }

  ghost predicate AlwaysRight(steps: seq<Step>)
    requires Runnable(steps)
    decreases |steps|
  {
    CountsRight(Run(steps)) && (steps != [] ==> AlwaysRight(steps[..|steps| - 1]))
  }

  /** In every run, the scheduler's count is the number of places held in every state if and only if no
      request gave its place back a second time while another request of its model held one. */
  lemma {:induction false} PlacesCountedRight(steps: seq<Step>)
    requires Runnable(steps)
    ensures AlwaysRight(steps) <==> !Stolen(steps)
  {
    if steps == [] {
      assert forall m :: Holders(START, m) == {};
    } else {
      var front, last := steps[..|steps| - 1], steps[|steps| - 1];
      PlacesCountedRight(front);
      Reachable(front);
      hide Inv, CountsRight, Steals, Enabled, Next;
      if AlwaysRight(front) {
        CountStaysRight(Run(front), last);
      }
    }
  }

  /** Only an overtaken request can do that. */
  lemma {:induction false} OnlyTheOvertakenSteal(steps: seq<Step>, step: Step)
    requires Runnable(steps) && Enabled(Run(steps), step) && Steals(Run(steps), step)
    ensures Overtaken(steps, step.id)
  {
    Reachable(steps);
    OvertookMeans(steps, step.id);
    var s := Run(steps);
    assert ServeInv(s.reqs[step.id], s.shutdown);
  }

  lemma CountStaysRight(s: State, step: Step)
    requires Inv(s) && Enabled(s, step) && CountsRight(s)
    ensures CountsRight(Next(s, step)) <==> !Steals(s, step)
  {
    hide After, CountAfter, CallerInv, ServeInv, Can, Fresh, GivesBack, Takes, Holds;
    var t := Next(s, step);
    if step.Shutdown? {
      assert forall m :: Holders(t, m) == Holders(s, m);
    } else if step.Arrive? {
      NewHoldsNothing(step.model, step.kind);
      assert forall m :: Holders(t, m) == Holders(s, m);
    } else {
      var id, a := step.id, Seen(s, step.id);
      var r := s.reqs[id];
      HoldsAfter(a, step, r);
      HoldersAfter(s, step, r);
      assert forall m :: m != r.model ==> Count(t.inFlight, m) == Count(s.inFlight, m);
      assert Count(t.inFlight, r.model) == CountAfter(a, step, r, Count(s.inFlight, r.model));
      hide Next, Enabled, Inv, Holders;
      OneCount(s, t, id, r, Takes(a, step, r), GivesBack(a, step, r), Holds(After(a, step, r)));
    }
  }

  lemma NewHoldsNothing(model: Model, kind: Kind)
    ensures !Holds(Fresh(model, kind))
  {
  }

  /** A step that serves takes a place, one that gives back frees it, and no other does either. */
  lemma HoldsAfter(a: Around, step: Step, r: Request)
    requires Can(a, step, r) && CallerInv(r, a.granting.Some?) && ServeInv(r, a.shutdown)
    ensures After(a, step, r).model == r.model && After(a, step, r).kind == r.kind
    ensures Takes(a, step, r) ==> !Holds(r) && Holds(After(a, step, r)) && !GivesBack(a, step, r)
    ensures GivesBack(a, step, r) ==> !Holds(After(a, step, r)) && (Holds(r) <==> r.given == 0)
    ensures !Takes(a, step, r) && !GivesBack(a, step, r) ==> Holds(After(a, step, r)) == Holds(r)
    ensures forall c: nat :: CountAfter(a, step, r, c) ==
              if Takes(a, step, r) then c + 1 else if GivesBack(a, step, r) && c > 0 then c - 1 else c
  {
    if step.TakeGrant? || step.CapOnlySent? || step.FinalSent? || step.TailSent? {
      GrantOrGiveBack(a, step, r);
    } else {
      hide ServeInv, CallerInv;
    }
  }

  lemma GrantOrGiveBack(a: Around, step: Step, r: Request)
    requires Can(a, step, r) && CallerInv(r, a.granting.Some?) && ServeInv(r, a.shutdown)
    requires step.TakeGrant? || step.CapOnlySent? || step.FinalSent? || step.TailSent?
    ensures After(a, step, r).model == r.model && After(a, step, r).kind == r.kind
    ensures Takes(a, step, r) ==> !Holds(r) && Holds(After(a, step, r)) && !GivesBack(a, step, r)
    ensures GivesBack(a, step, r) ==> !Holds(After(a, step, r)) && (Holds(r) <==> r.given == 0)
    ensures !Takes(a, step, r) && !GivesBack(a, step, r) ==> Holds(After(a, step, r)) == Holds(r)
  {
  }

  /** The grant of a handler that counts. */
  predicate Takes(a: Around, step: Step, r: Request) {
    step.TakeGrant? && a.granting == Some(false) && r.Counted()
  }

  lemma HoldersAfter(s: State, step: Step, r: Request)
    requires Enabled(s, step) && !step.Arrive? && !step.Shutdown? && r == s.reqs[step.id]
    requires After(Seen(s, step.id), step, r).model == r.model
    ensures var to, now := After(Seen(s, step.id), step, r), Holders(Next(s, step), r.model);
            && now == Holders(s, r.model) - {step.id} + (if Holds(to) then {step.id} else {})
            && (step.id in Holders(s, r.model) <==> Holds(r))
            && forall m :: m != r.model ==> Holders(Next(s, step), m) == Holders(s, m)
  {
    hide After, CountAfter, Holds, Can;
  }

  /** The step's effect on the count of its model, against its effect on the holders. */
  lemma OneCount(s: State, t: State, id: Id, r: Request, takes: bool, back: bool, holds: bool)
    requires CountsRight(s)
    requires forall m :: m != r.model ==> Holders(t, m) == Holders(s, m) && Count(t.inFlight, m) == Count(s.inFlight, m)
    requires var h := Holders(s, r.model);
             (id in h <==> Holds(r)) && Holders(t, r.model) == h - {id} + (if holds then {id} else {})
    requires takes ==> !Holds(r) && holds && !back
    requires back ==> !holds && (Holds(r) <==> r.given == 0)
    requires !takes && !back ==> holds == Holds(r)
    requires var c := Count(s.inFlight, r.model);
             Count(t.inFlight, r.model) == if takes then c + 1 else if back && c > 0 then c - 1 else c
    ensures CountsRight(t) <==> !(back && r.given > 0 && exists other <- Holders(s, r.model) :: other != id)
  {
    OneModelMatters(s, t, r.model);
    hide Holds, Holders, Count, CountsRight;
    SizesAgree(Holders(s, r.model), id, Holders(t, r.model), takes, back, Holds(r), holds, r.given == 0);
  }

  lemma OneModelMatters(s: State, t: State, model: Model)
    requires CountsRight(s)
    requires forall m :: m != model ==> Holders(t, m) == Holders(s, m) && Count(t.inFlight, m) == Count(s.inFlight, m)
    ensures CountsRight(t) <==> Count(t.inFlight, model) == |Holders(t, model)|
    ensures Count(s.inFlight, model) == |Holders(s, model)|
  {
    hide Holders, Count;
  }

  lemma SizesAgree(h: set<Id>, id: Id, now: set<Id>, takes: bool, back: bool, held: bool, holds: bool, first: bool)
    requires (id in h <==> held) && now == h - {id} + (if holds then {id} else {})
    requires takes ==> !held && holds && !back
    requires back ==> !holds && (held <==> first)
    requires !takes && !back ==> holds == held
    ensures (if takes then |h| + 1 else if back && |h| > 0 then |h| - 1 else |h|) == |now| <==>
              !(back && !first && exists other <- h :: other != id)
  {
    if back && !first {
      assert now == h;
    } else if takes {
      assert now == h + {id};
    } else if back {
      assert now == h - {id};
    } else {
      assert now == h;
    }
  }

  /** The caller's serving ended while its release was launched but had not run. */
  predicate Overtaken(steps: seq<Step>, id: Id)
    requires Runnable(steps)
    decreases |steps|
  {
    steps != [] &&
    var front, last := steps[..|steps| - 1], steps[|steps| - 1];
    Overtaken(front, id) || (last.Finish? && last.id == id && id in Run(front).reqs
        && Run(front).reqs[id].release == Launched)
  }

  lemma {:induction false} OvertookMeans(steps: seq<Step>, id: Id)
    requires Runnable(steps)
    ensures Overtaken(steps, id) <==> id in Run(steps).reqs && Run(steps).reqs[id].overtook
  {
    if steps != [] {
      var front, last := steps[..|steps| - 1], steps[|steps| - 1];
      hide Enabled, Next, Inv;
      OvertookMeans(front, id);
      Reachable(front);
      OvertookComes(Run(front), last, id);
    }
  }

  lemma OvertookComes(s: State, step: Step, id: Id)
    requires Inv(s) && Enabled(s, step)
    ensures (id in Next(s, step).reqs && Next(s, step).reqs[id].overtook) <==>
              id in s.reqs && (s.reqs[id].overtook || (step.Finish? && step.id == id && s.reqs[id].release == Launched))
  {
    hide After, Next, Enabled, Can, CallerInv, ServeInv;
    if id in s.reqs {
      OvertookAfterServing(s.reqs[id], s.shutdown);
    }
    NextAt(s, step, id);
    if !step.Shutdown? && !step.Arrive? && step.id == id {
      OvertookAfter(Seen(s, id), step, s.reqs[id]);
    }
  }

  lemma OvertookAfterServing(r: Request, shutdown: bool)
    requires ServeInv(r, shutdown)
    ensures r.overtook ==> r.phase != Serving
  {
  }

  lemma OvertookAfter(a: Around, step: Step, r: Request)
    requires Can(a, step, r) && (r.overtook ==> r.phase != Serving)
    ensures After(a, step, r).overtook <==> r.overtook || (step.Finish? && r.release == Launched)
  {
    match step {
      case Finish(_, _) => assert !r.overtook;
      case _ =>
    }
  }

  // ----- The cap -----

  /** The scheduler grants a slotted request of m a handler only while it counts fewer than n requests of
      m.  What the cap does not hold back it may grant at any time. */
  predicate Allowed(s: State, step: Step, m: Model, n: nat)
    requires Enabled(s, step)
  {
    step.StartGrant? && !step.isError && s.reqs[step.id].model == m && s.reqs[step.id].kind == Slotted ==>
      Count(s.inFlight, m) < n
  }

  predicate Capped(steps: seq<Step>, m: Model, n: nat)
    requires Runnable(steps)
    decreases |steps|
  {
    steps != [] ==>
      Capped(steps[..|steps| - 1], m, n) && Allowed(Run(steps[..|steps| - 1]), steps[|steps| - 1], m, n)
  }

  // ----- A stolen place -----

  /** Request id in a state of its own, beside the others in rest. */
  function Beside(rest: map<Id, Request>, id: Id, r: Request, loop: Loop, count: nat): State {
    State(rest[id := r], loop, false, map[0 := count])
  }

  predicate Leads(steps: seq<Step>, s: State) {
    Runnable(steps) && Run(steps) == s
  }

  /** Up to here no place was stolen, and model 0 was kept under a cap of 2. */
  ghost predicate Fair(steps: seq<Step>) {
    Runnable(steps) && !Stolen(steps) && Capped(steps, 0, 2)
  }

  /** One step of request id of model 0. */
  lemma OneMore(rest: map<Id, Request>, steps: seq<Step>, id: Id, r: Request, loop: Loop, count: nat,
                step: Step, to: Request, toLoop: Loop, toCount: nat)
    requires Leads(steps, Beside(rest, id, r, loop, count)) && id !in rest && r.model == 0
    requires !step.Arrive? && !step.Shutdown? && step.id == id
    requires var a := Near(id, loop, false);
             && Can(a, step, r) && to == After(a, step, r) && toCount == CountAfter(a, step, r, count)
             && toLoop == LoopAfter(loop, step)
    ensures Leads(steps + [step], Beside(rest, id, to, toLoop, toCount))
    ensures var honest := GivesBack(Near(id, loop, false), step, r) ==> r.given == 0;
            Fair(steps) && honest && (step.StartGrant? ==> count < 2) ==> Fair(steps + [step])
  {
    hide After, CountAfter, Can, GivesBack, Fair;
    assert (steps + [step])[..|steps|] == steps;
    assert rest[id := r][id := to] == rest[id := to];
    assert map[0 := count][0 := toCount] == map[0 := toCount];
    StaysFair(steps, step);
  }

  lemma StaysFair(steps: seq<Step>, step: Step)
    requires Runnable(steps) && Enabled(Run(steps), step) && !step.Shutdown?
    ensures Fair(steps) && step.Arrive? ==> Fair(steps + [step])
    ensures !step.Arrive? ==>
              var s := Run(steps); var r := s.reqs[step.id];
              var honest := GivesBack(Seen(s, step.id), step, r) ==> r.given == 0;
              Fair(steps) && honest && (step.StartGrant? ==> Count(s.inFlight, 0) < 2) ==> Fair(steps + [step])
  {
    assert (steps + [step])[..|steps|] == steps;
    hide After, CountAfter, Can, GivesBack, Next, Holds;
  }

  const FRESH := Fresh(0, Slotted)
  const QUEUED := FRESH.(phase := AwaitGrant, eligible := true)
  const SERVED := FRESH.(phase := Serving, grant := GrantedHandler, reported := Some(true), bound := true)

  /** The steps that bring request id from its arrival to being served with a slot. */
  function Admission(id: Id): seq<Step> {
    [Arrive(id, 0, Slotted), Offer(id, Some(true)), TakeAdmit(id)]
  }

  function Service(id: Id): seq<Step> {
    [StartGrant(id, false), TakeGrant(id, true)]
  }

  lemma GetsAdmitted(rest: map<Id, Request>, steps: seq<Step>, id: Id, count: nat)
    requires Leads(steps, State(rest, Idle, false, map[0 := count])) && id !in rest
    ensures Leads(steps + Admission(id), Beside(rest, id, QUEUED, Idle, count))
    ensures Fair(steps) ==> Fair(steps + Admission(id))
  {
    var arrived := steps + [Arrive(id, 0, Slotted)];
    Arrives(rest, steps, id, count);
    hide Fair, Leads, Runnable, Run, Next, Enabled, Beside;
    var offered := FRESH.(phase := AwaitAdmit, admit := Some(true), eligible := true);
    OneMore(rest, arrived, id, FRESH, Idle, count, Offer(id, Some(true)), offered, Idle, count);
    OneMore(rest, arrived + [Offer(id, Some(true))], id, offered, Idle, count, TakeAdmit(id), QUEUED, Idle, count);
    assert arrived + [Offer(id, Some(true))] + [TakeAdmit(id)] == steps + Admission(id);
  }

  lemma Arrives(rest: map<Id, Request>, steps: seq<Step>, id: Id, count: nat)
    requires Leads(steps, State(rest, Idle, false, map[0 := count])) && id !in rest
    ensures var arrived := steps + [Arrive(id, 0, Slotted)];
            Leads(arrived, Beside(rest, id, FRESH, Idle, count)) && (Fair(steps) ==> Fair(arrived))
  {
    hide Fair;
    assert (steps + [Arrive(id, 0, Slotted)])[..|steps|] == steps;
    StaysFair(steps, Arrive(id, 0, Slotted));
  }

  /** The same for the first request of all. */
  lemma FirstAdmitted()
    ensures Leads(Admission(1), Beside(map[], 1, QUEUED, Idle, 0)) && Fair(Admission(1))
  {
    var offered := FRESH.(phase := AwaitAdmit, admit := Some(true), eligible := true);
    FirstArrives();
    OfferToEmpty(offered);
    hide Fair, Leads, Runnable, Run, Next, Enabled, Beside;
    var a := [Arrive(1, 0, Slotted)] + [Offer(1, Some(true))];
    OneMore(map[], a, 1, offered, Idle, 0, TakeAdmit(1), QUEUED, Idle, 0);
    assert a + [TakeAdmit(1)] == Admission(1);
  }

  lemma FirstArrives()
    ensures Leads([Arrive(1, 0, Slotted)], State(map[1 := FRESH], Idle, false, map[]))
    ensures Fair([Arrive(1, 0, Slotted)])
  {
    assert [Arrive(1, 0, Slotted)][..0] == [];
  }

  lemma OfferToEmpty(offered: Request)
    requires offered == FRESH.(phase := AwaitAdmit, admit := Some(true), eligible := true)
    requires Leads([Arrive(1, 0, Slotted)], State(map[1 := FRESH], Idle, false, map[]))
    requires Fair([Arrive(1, 0, Slotted)])
    ensures Leads([Arrive(1, 0, Slotted)] + [Offer(1, Some(true))], Beside(map[], 1, offered, Idle, 0))
    ensures Fair([Arrive(1, 0, Slotted)] + [Offer(1, Some(true))])
  {
    hide Fair;
    var a := [Arrive(1, 0, Slotted)];
    StaysFair(a, Offer(1, Some(true)));
    assert (a + [Offer(1, Some(true))])[..|a|] == a;
    assert map[1 := FRESH][1 := offered] == map[1 := offered];
  }

  lemma GetsServed(rest: map<Id, Request>, steps: seq<Step>, id: Id, count: nat)
    requires Leads(steps, Beside(rest, id, QUEUED, Idle, count)) && id !in rest
    ensures Leads(steps + Service(id), Beside(rest, id, SERVED, Idle, count + 1))
    ensures Fair(steps) && count < 2 ==> Fair(steps + Service(id))
  {
    hide Fair, Leads, Runnable, Run, Next, Enabled, Beside;
    var chosen := FRESH.(phase := AwaitGrant);
    OneMore(rest, steps, id, QUEUED, Idle, count, StartGrant(id, false), chosen, Granting(id, false), count);
    OneMore(rest, steps + [StartGrant(id, false)], id, chosen, Granting(id, false), count,
            TakeGrant(id, true), SERVED, Idle, count + 1);
    assert steps + [StartGrant(id, false)] + [TakeGrant(id, true)] == steps + Service(id);
  }

  /** Two requests of one model are served, 1 and then 0. */
  const BOTH_SERVED := Admission(1) + Service(1) + Admission(0) + Service(0)

  lemma BothServed()
    ensures Leads(BOTH_SERVED, Beside(map[1 := SERVED], 0, SERVED, Idle, 2)) && Fair(BOTH_SERVED)
  {
    hide Fair;
    var none: map<Id, Request> := map[];
    FirstAdmitted();
    GetsServed(none, Admission(1), 1, 0);
    var first := Admission(1) + Service(1);
    assert Beside(none, 1, SERVED, Idle, 1) == State(map[1 := SERVED], Idle, false, map[0 := 1]);
    GetsAdmitted(map[1 := SERVED], first, 0, 1);
    GetsServed(map[1 := SERVED], first + Admission(0), 0, 1);
  }

  const OVERTAKING := [Phantom(0), Finish(0, false), FinalSent(0), ReleaseRuns(0)]
  const ANSWERED := FRESH.(phase := Left, ctxDone := true, grant := GrantedHandler, reported := Some(true),
                           capReleased := true, release := CapOnlySending, finals := 1, given := 1, overtook := true)

  /** The slot table declares 0 a phantom, its handler returns first, and then the release runs. */
  lemma HandlerReturnsFirst()
    ensures Leads(BOTH_SERVED + OVERTAKING, Beside(map[1 := SERVED], 0, ANSWERED, Idle, 1))
  {
    BothServed();
    hide Fair, Leads, Runnable, Run, Next, Enabled, Beside;
    var rest, a := map[1 := SERVED], BOTH_SERVED;
    var phantom := SERVED.(bound := false, release := Launched);
    var ending := phantom.(phase := Finishing(Done(false)), overtook := true);
    var gone := ending.(phase := Left, ctxDone := true, finals := 1, given := 1);
    OneMore(rest, a, 0, SERVED, Idle, 2, Phantom(0), phantom, Idle, 2);
    OneMore(rest, a + [Phantom(0)], 0, phantom, Idle, 2, Finish(0, false), ending, Idle, 2);
    OneMore(rest, a + [Phantom(0)] + [Finish(0, false)], 0, ending, Idle, 2, FinalSent(0), gone, Idle, 1);
    OneMore(rest, a + [Phantom(0)] + [Finish(0, false)] + [FinalSent(0)], 0, gone, Idle, 1, ReleaseRuns(0), ANSWERED,
        Idle, 1);
    assert a + [Phantom(0)] + [Finish(0, false)] + [FinalSent(0)] + [ReleaseRuns(0)] == a + OVERTAKING;
  }

  /** The scheduler then counts nobody, while request 1 is being served and holds its place. */
  lemma PlaceStolen()
    ensures var steps := BOTH_SERVED + OVERTAKING + [CapOnlySent(0)];
            && Runnable(steps) && Stolen(steps)
            && 1 in Run(steps).reqs && Run(steps).reqs[1].phase == Serving && Holds(Run(steps).reqs[1])
            && Count(Run(steps).inFlight, 0) == 0
  {
    HandlerReturnsFirst();
    hide Fair;
    var rest, a := map[1 := SERVED], BOTH_SERVED + OVERTAKING;
    var twice := ANSWERED.(release := Used, capOnly := 1, given := 2);
    OneMore(rest, a, 0, ANSWERED, Idle, 1, CapOnlySent(0), twice, Idle, 0);
    assert (a + [CapOnlySent(0)])[..|a|] == a;
    SecondGiveBack(Run(a));
    hide Steals, Run, Enabled;
    assert Run(a + [CapOnlySent(0)]) == Beside(rest, 0, twice, Idle, 0);
    assert Stolen(a + [CapOnlySent(0)]);
  }

  lemma SecondGiveBack(s: State)
    requires s == Beside(map[1 := SERVED], 0, ANSWERED, Idle, 1)
    ensures Enabled(s, CapOnlySent(0)) && Steals(s, CapOnlySent(0))
  {
    assert 1 in Holders(s, 0);
  }
}
