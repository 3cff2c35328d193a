/**
  The process run loop (internal/process/process_command.go:219-497): the one goroutine that owns a
  model's process state, and the requests of Run, EnsureReady, WaitReady and Stop that it serves.
  Starting and killing a child are the environment's; every select is resolved by an event of a script.
 */
module Lifecycle {
  import opened Basics

  datatype ProcessState = Stopped | Starting | Ready | Stopping | Shutdown

  /** What a request asks.  Run wants its answer when the process ends, EnsureReady when it is ready. */
  datatype Kind = RunReq | EnsureReadyReq | WaitReadyReq | StopReq

  datatype Answer = Ok | Failed | Aborted | Rejected | ShutDown | Exited | StoppedByCaller

  /** An answer, and the state in which it was given. */
  datatype Told = Told(answer: Answer, at: ProcessState)

  type Id = nat
  type Child = nat

  /** How the wait for doStart ends.  A start that was cut short may still hand over a live child. */
  datatype StartOutcome =
    | Finished(child: Option<Child>)
    | StopArrived(stop: Id, late: Option<Child>)
    | ParentEnded(late: Option<Child>, early: bool)  // whether it came up before or after Shutdown showed

  /** What the loop's select receives next, or what a child does by itself. */
  datatype Event =
    | ParentDone
    | UpstreamDone
    | AskWaitReady(id: Id)
    | AskStart(id: Id, block: bool, outcome: StartOutcome)
    | AskStop(id: Id)
    | ChildExits

  /** What other goroutines can see after a write: the state, whether a handler is stored, and how many
      children are alive. */
  datatype Snapshot = Snapshot(state: ProcessState, handler: bool, alive: nat)

  predicate LegalChange(s: ProcessState, t: ProcessState) {
    || s == t
    || (s == Stopped && (t == Starting || t == Shutdown))
    || (s == Starting && (t == Ready || t == Stopped || t == Shutdown))
    || (s == Ready && (t == Stopping || t == Stopped || t == Shutdown))
    || (s == Stopping && t == Stopped)
  }

  /** Never two children; none while Stopped is visible; and a handler only while there may be one. */
  predicate SafeView(v: Snapshot) {
    && v.alive <= 1
    && (v.state == Stopped ==> v.alive == 0 && !v.handler)
    && (v.state == Ready && v.alive == 1 ==> v.handler)
  }

  ghost predicate SafeTrace(trace: seq<Snapshot>) {
    && trace != []
    && (forall i :: 0 <= i < |trace| ==> SafeView(trace[i]))
    && (forall i :: 0 < i < |trace| ==> LegalChange(trace[i - 1].state, trace[i].state))
  }

  /** Others see Ready, and find no handler. */
  predicate IsGap(v: Snapshot) {
    v.state == Ready && !v.handler
  }

  ghost function Gaps(trace: seq<Snapshot>): nat {
    if trace == [] then 0 else Gaps(trace[..|trace| - 1]) + if IsGap(trace[|trace| - 1]) then 1 else 0
  }

  /** The trace grew, and Ready never showed without a handler in what is new. */
  ghost predicate NoGap(was: seq<Snapshot>, now: seq<Snapshot>) {
    was <= now && Gaps(now) == Gaps(was)
  }

  lemma GapsMore(trace: seq<Snapshot>, v: Snapshot)
    ensures Gaps(trace + [v]) == Gaps(trace) + if IsGap(v) then 1 else 0
  {
    assert (trace + [v])[..|trace|] == trace;
  }

  /** What an answer promises: a caller told "ready" was told so in Ready, a Run that returns nil was
      stopped, and a Stop is answered nil, in Stopped. */
  predicate Honest(kind: Kind, told: Told) {
    match kind
    case StopReq => told == Told(Ok, Stopped)
    case RunReq => told.answer == Ok ==> told.at == Stopped
    case EnsureReadyReq => told.answer == Ok ==> told.at == Ready
    case WaitReadyReq => told.answer == Ok ==> told.at == Ready
  }

  ghost predicate AllHonest(asked: map<Id, Kind>, answers: map<Id, Told>) {
    forall id <- answers :: id in asked && Honest(asked[id], answers[id])
  }

  class RunLoop {
    var state: ProcessState
    var cmd: Option<Child>  // with its cmdDone and cmdCancel
    var handler: bool       // p.handler holds one
    var readyWaiters: seq<Id>
    var runResp: Option<Id>
    var ended: bool
    ghost var alive: set<Child>
    ghost var asked: map<Id, Kind>           // every request received
    ghost var answers: map<Id, Told>         // and what it was told
    ghost var inHand: set<Id>                // received in this turn, neither answered nor parked yet
    ghost var trace: seq<Snapshot>

    constructor ()
      ensures AtSelect() && state == Stopped && !ended && asked == map[] && answers == map[]
      ensures trace == [Snapshot(Stopped, false, 0)]
    {
      state, cmd, handler, readyWaiters, runResp, ended := Stopped, None, false, [], None, false;
      alive, asked, answers, inHand := {}, map[], map[], {};
      trace := [Snapshot(Stopped, false, 0)];
    }

    /** Every request received has been answered honestly, or is parked, or is in hand. */
    ghost predicate Booked()
      reads this`readyWaiters, this`runResp, this`asked, this`answers, this`inHand
    {
      Books(readyWaiters, runResp, asked, answers, inHand)
    }

    ghost predicate Views()
      reads this`state, this`handler, this`alive, this`trace
    {
      SafeTrace(trace) && trace[|trace| - 1] == Snapshot(state, handler, |alive|)
    }

    /** Between two turns of the loop. */
    ghost predicate AtSelect()
      reads this
    {
      && Views() && Booked()
      && (if ended then AtEnd() else AtRest())
    }

    /** The loop is back at its select: everyone received has an answer or is parked. */
    ghost predicate AtRest()
      reads this
    {
      && (state == Stopped || state == Ready)
      && (state == Ready <==> cmd.Some?)
      && (handler <==> cmd.Some?)
      && (alive == {} || (cmd.Some? && alive == {cmd.value}))
      && (runResp.Some? ==> state == Ready)
      && (readyWaiters != [] ==> state == Stopped)
      && inHand == {}
    }

    /** The loop has returned: nothing runs, and the only caller without an answer is one whose start was
        under way, who sees the parent context end instead. */
    ghost predicate AtEnd()
      reads this
    {
      && state == Shutdown && cmd.None? && !handler && alive == {} && readyWaiters == [] && runResp.None?
      && |inHand| <= 1 && forall id <- inHand :: id in asked && (asked[id] == RunReq || asked[id] == EnsureReadyReq)
    }

    // ----- Single writes and sends -----

    /** setState */
    method SetState(s: ProcessState)
      requires Views() && LegalChange(state, s) && SafeView(Snapshot(s, handler, |alive|))
      modifies this`state, this`trace
      ensures Views() && state == s && old(trace) <= trace
      ensures Gaps(trace) == Gaps(old(trace)) + if IsGap(Snapshot(s, handler, |alive|)) then 1 else 0
    {
      GapsMore(trace, Snapshot(s, handler, |alive|));
      state := s;
      trace := trace + [Snapshot(s, handler, |alive|)];
    }

    method StoreHandler(h: bool)
      requires Views() && SafeView(Snapshot(state, h, |alive|))
      modifies this`handler, this`trace
      ensures Views() && handler == h && trace == old(trace) + [Snapshot(state, h, |alive|)]
      ensures Gaps(trace) == Gaps(old(trace)) + if IsGap(Snapshot(state, h, |alive|)) then 1 else 0
    {
      GapsMore(trace, Snapshot(state, h, |alive|));
      handler := h;
      trace := trace + [Snapshot(state, h, |alive|)];
    }

    /** doStart has brought up a child. */
    ghost method Spawn(c: Child)
      requires Views() && (state == Starting || state == Shutdown) && alive == {} && !handler
      modifies this`alive, this`trace
      ensures Views() && alive == {c}
      ensures old(trace) <= trace && Gaps(trace) == Gaps(old(trace))
    {
      alive := {c};
      GapsMore(trace, Snapshot(state, handler, |alive|));
      trace := trace + [Snapshot(state, handler, |alive|)];
    }

    /** The child has exited: by itself, or because killProcess waited for it. */
    ghost method Gone()
      requires Views()
      modifies this`alive, this`trace
      ensures Views() && alive == {} && old(trace) <= trace
      ensures Gaps(trace) == Gaps(old(trace)) + if IsGap(Snapshot(state, handler, 0)) then 1 else 0
    {
      alive := {};
      GapsMore(trace, Snapshot(state, handler, |alive|));
      trace := trace + [Snapshot(state, handler, |alive|)];
    }

    /** A request is received; no two are the same. */
    ghost method Receive(id: Id, kind: Kind)
      requires Booked() && id !in asked
      modifies this`asked, this`inHand
      ensures Booked() && asked == old(asked)[id := kind] && inHand == old(inHand) + {id}
    {
      BookReceived(readyWaiters, runResp, asked, answers, inHand, id, kind);
      asked, inHand := asked[id := kind], inHand + {id};
    }

    /** req.respond <- answer: the channel holds one answer and has none yet, so this never blocks. */
    method Reply(id: Id, answer: Answer)
      requires Booked() && id in inHand && id in asked && Honest(asked[id], Told(answer, state))
      modifies this`answers, this`inHand
      ensures Booked() && answers == old(answers)[id := Told(answer, state)] && inHand == old(inHand) - {id}
    {
      BookReplied(readyWaiters, runResp, asked, answers, inHand, id, Told(answer, state));
      answers, inHand := answers[id := Told(answer, state)], inHand - {id};
    }

    /** readyWaiters = append(readyWaiters, req) */
    method ParkWaiter(id: Id)
      requires Booked() && id in inHand && id in asked && asked[id] == WaitReadyReq
      modifies this`readyWaiters, this`inHand
      ensures Booked() && readyWaiters == old(readyWaiters) + [id] && inHand == old(inHand) - {id}
    {
      BookParked(readyWaiters, runResp, asked, answers, inHand, id);
      readyWaiters, inHand := readyWaiters + [id], inHand - {id};
    }

    /** runResp = req.respond */
    method ParkRun(id: Id)
      requires Booked() && runResp.None? && id in inHand && id in asked && asked[id] == RunReq
      modifies this`runResp, this`inHand
      ensures Booked() && runResp == Some(id) && inHand == old(inHand) - {id}
    {
      runResp, inHand := Some(id), inHand - {id};
    }

    /** notifyWaiters */
    method NotifyWaiters(answer: Answer)
      requires Booked() && (answer == Ok ==> state == Ready)
      modifies this`answers, this`readyWaiters
      ensures Booked() && readyWaiters == [] && answers == Tell(old(answers), old(readyWaiters), Told(answer, state))
    {
      hide Books, Tell;
      ghost var was, told := answers, Told(answer, state);
      BookNotified(readyWaiters, runResp, asked, was, inHand, told);
      TellNobody(was, told);
      assert readyWaiters[..0] == [];
      for i := 0 to |readyWaiters|
        invariant readyWaiters == old(readyWaiters) && answers == Tell(was, readyWaiters[..i], told)
      {
        // the send is to a waiter that has no answer yet
        BookWaiting(readyWaiters, runResp, asked, was, inHand, i, told);
        TellOneMore(was, readyWaiters, i, told);
        answers := answers[readyWaiters[i] := Told(answer, state)];
      }
      assert readyWaiters[..|readyWaiters|] == readyWaiters;
      readyWaiters := [];
    }

    /** respondRun */
    method RespondRun(answer: Answer)
      requires Booked() && (answer == Ok ==> state == Stopped)
      modifies this`answers, this`runResp
      ensures Booked() && runResp.None?
      ensures answers == TellRun(old(answers), old(runResp), Told(answer, state))
    {
      if runResp.Some? {
        answers := answers[runResp.value := Told(answer, state)];
        runResp := None;
      }
    }

    // ----- The branches of the select -----

    /** The parent context is cancelled: everything is torn down and everyone told. */
    method OnParentDone()
      requires AtSelect() && !ended
      modifies this
      ensures AtSelect() && ended && inHand == {}
      ensures asked == old(asked) && NoGap(old(trace), trace)
      ensures answers == TellRun(Tell(old(answers), old(readyWaiters), Told(ShutDown, Shutdown)), old(runResp),
                Told(ShutDown, Shutdown))
    {
      hide Books, SafeTrace, Tell, Gaps;
      SetState(Shutdown);
      if cmd.Some? {
        StoreHandler(false);
        Gone();
        cmd := None;
      }
      NotifyWaiters(ShutDown);
      RespondRun(ShutDown);
      ended := true;
    }

    /** The child has exited on its own. */
    method OnUpstreamDone()
      requires AtSelect() && !ended && cmd.Some? && alive == {}
      modifies this
      ensures AtSelect() && !ended && state == Stopped
      ensures asked == old(asked) && old(trace) <= trace
      ensures answers == TellRun(old(answers), old(runResp), Told(Exited, Stopped))
      // for a moment Ready shows without a handler; SafeView says the child is dead by then
      ensures old(trace) + [Snapshot(Ready, false, 0)] <= trace && Gaps(trace) == Gaps(old(trace)) + 1
    {
      hide Books, SafeTrace, Tell, Gaps;
      cmd := None;
      StoreHandler(false);
      SetState(Stopped);
      TellNobody(answers, Told(Exited, Stopped));
      NotifyWaiters(Exited);
      RespondRun(Exited);
    }

    /** WaitReady: answered in Ready, else parked.  (The source's Shutdown case cannot be reached here.) */
    method OnWaitReady(id: Id)
      requires AtSelect() && !ended && id !in asked
      modifies this
      ensures AtSelect() && !ended && state == old(state) && asked == old(asked)[id := WaitReadyReq]
      ensures trace == old(trace)
      ensures answers == if state == Ready then old(answers)[id := Told(Ok, Ready)] else old(answers)
    {
      hide Books, SafeTrace, Gaps;
      Receive(id, WaitReadyReq);
      if state == Ready {
        Reply(id, Ok);
      } else {
        ParkWaiter(id);
      }
    }

    /** Stop: tears down a running process, and is no error otherwise. */
    method OnStop(id: Id)
      requires AtSelect() && !ended && id !in asked
      modifies this
      ensures AtSelect() && !ended && state == Stopped && alive == {} && asked == old(asked)[id := StopReq]
      ensures NoGap(old(trace), trace)
      // a waiter for a start that has not come yet stays parked
      ensures readyWaiters == old(readyWaiters)
      ensures answers ==
                (if old(runResp).Some? then old(answers)[old(runResp).value := Told(Ok, Stopped)] else old(answers))
                  [id := Told(Ok, Stopped)]
    {
      hide Books, SafeTrace, Tell, Gaps;
      Receive(id, StopReq);
      var toreDown := TearDown();
      if toreDown {
        TellNobody(answers, Told(StoppedByCaller, Stopped));
        NotifyWaiters(StoppedByCaller);
      }
      RespondRun(Ok);
      Reply(id, Ok);
    }

    method TearDown() returns (toreDown: bool)
      requires Views() && (state == Stopped || state == Ready)
      requires (state == Ready <==> cmd.Some?) && (handler <==> cmd.Some?)
      requires alive == {} || (cmd.Some? && alive == {cmd.value})
      modifies this`state, this`cmd, this`handler, this`alive, this`trace
      ensures Views() && state == Stopped && cmd.None? && !handler && alive == {} && NoGap(old(trace), trace)
      ensures toreDown == old(cmd).Some?
    {
      hide SafeTrace, Gaps;
      toreDown := cmd.Some?;
      if cmd.Some? {
        SetState(Stopping);
        Gone();
        cmd := None;
        StoreHandler(false);
      }
      SetState(Stopped);
    }

    /** Run or EnsureReady. */
    method OnStart(id: Id, block: bool, outcome: StartOutcome)
      requires AtSelect() && !ended && id !in asked
      requires outcome.StopArrived? ==> outcome.stop !in asked && outcome.stop != id
      modifies this
      ensures AtSelect() && NoGap(old(trace), trace)
      ensures asked == var now := old(asked)[id := if block then RunReq else EnsureReadyReq];
                       if old(state) == Stopped && outcome.StopArrived? then now[outcome.stop := StopReq] else now
      ensures old(state) == Ready ==> state == Ready && !ended
      ensures old(state) == Ready ==> answers == old(answers)[id := Told(if block then Rejected else Ok, Ready)]
      ensures old(state) == Stopped ==>
                var waiting := old(readyWaiters);
                match outcome
                case Finished(Some(c)) =>
                  var told := Tell(old(answers), waiting, Told(Ok, Ready));
                  && !ended && state == Ready && cmd == Some(c) && alive == {c}
                  && runResp == (if block then Some(id) else None)
                  && answers == if block then told else told[id := Told(Ok, Ready)]
                case Finished(None) =>
                  && !ended && state == Stopped
                  && answers == Tell(old(answers), waiting, Told(Failed, Stopped))[id := Told(Failed, Stopped)]
                case StopArrived(stop, _) =>
                  && !ended && state == Stopped && alive == {}
                  && answers == Tell(old(answers), waiting,
                      Told(Aborted, Stopped))[id := Told(Aborted, Stopped)][stop := Told(Ok, Stopped)]
                case ParentEnded(_, _) =>
                  && ended && inHand == {id}
                  && answers == Tell(old(answers), waiting, Told(ShutDown, Shutdown))
    {
      hide Books, SafeTrace, Tell, Gaps;
      Receive(id, if block then RunReq else EnsureReadyReq);
      if !block && state == Ready {
        Reply(id, Ok);
        return;
      }
      if state != Stopped {
        Reply(id, Rejected);
        return;
      }
      SetState(Starting);
      match outcome {
        case Finished(Some(c)) => LatchReady(id, block, c);
        case Finished(None) => FailStart(id);
        case StopArrived(stop, late) => AbortStart(id, stop, late);
        case ParentEnded(late, early) => ShutDownStart(id, late, early);
      }
    }

    /** The child may exit at any time; the loop learns of it from cmdDone. */
    ghost method ChildExits()
      requires AtSelect() && !ended && alive != {}
      modifies this`alive, this`trace
      ensures AtSelect() && alive == {} && NoGap(old(trace), trace)
    {
      hide Books, SafeTrace, Gaps;
      Gone();
    }

    /** What the environment can do next. */
    ghost predicate Enabled(e: Event)
      reads this`asked, this`cmd, this`alive
    {
      match e
      case ParentDone => true
      case UpstreamDone => cmd.Some? && alive == {}
      case AskWaitReady(id) => id !in asked
      case AskStop(id) => id !in asked
      case AskStart(id, _, outcome) => id !in asked
          && (outcome.StopArrived? ==> outcome.stop !in asked && outcome.stop != id)
      case ChildExits => alive != {}
    }

    /** One turn of the loop, whatever comes: the invariants hold again, nothing asked or answered is
        forgotten or changed, and what others have seen stays seen. */
    method Turn(e: Event)
      requires AtSelect() && !ended && Enabled(e)
      modifies this
      ensures AtSelect() && old(trace) <= trace
      // only an exit of the child lets Ready show without a handler, and then once
      ensures Gaps(trace) == Gaps(old(trace)) + if e.UpstreamDone? then 1 else 0
      ensures forall id <- old(asked) :: id in asked && asked[id] == old(asked)[id]
      ensures forall id <- old(answers) :: id in answers && answers[id] == old(answers)[id]
    {
      hide Books, SafeTrace, Tell, Gaps;
      BookKeeps(readyWaiters, runResp, asked, answers, inHand);
      match e {
        case ParentDone => OnParentDone();
        case UpstreamDone => OnUpstreamDone();
        case AskWaitReady(id) => OnWaitReady(id);
        case AskStart(id, block, outcome) => OnStart(id, block, outcome);
        case AskStop(id) => OnStop(id);
        case ChildExits => ChildExits();
      }
    }

    /** A start of caller id is under way. */
    ghost predicate AtStarting(id: Id)
      reads this
    {
      && Views() && Booked() && !ended
      && state == Starting && cmd.None? && !handler && alive == {} && runResp.None?
      && inHand == {id} && id in asked
    }

    /** doStart brought up child c: it is latched before Ready shows. */
    method LatchReady(id: Id, block: bool, c: Child)
      requires AtStarting(id) && asked[id] == (if block then RunReq else EnsureReadyReq)
      modifies this
      ensures AtSelect() && !ended && state == Ready && cmd == Some(c) && alive == {c} && asked == old(asked)
      ensures NoGap(old(trace), trace) && runResp == if block then Some(id) else None
      ensures var told := Tell(old(answers), old(readyWaiters), Told(Ok, Ready));
              answers == if block then told else told[id := Told(Ok, Ready)]
    {
      hide Books, SafeTrace, Tell, Gaps;
      Spawn(c);
      cmd := Some(c);
      StoreHandler(true);
      SetState(Ready);
      NotifyWaiters(Ok);
      if block {
        ParkRun(id);
      } else {
        Reply(id, Ok);
      }
    }

    method FailStart(id: Id)
      requires AtStarting(id) && (asked[id] == RunReq || asked[id] == EnsureReadyReq)
      modifies this
      ensures AtSelect() && !ended && state == Stopped && asked == old(asked) && NoGap(old(trace), trace)
      ensures answers == Tell(old(answers), old(readyWaiters), Told(Failed, Stopped))[id := Told(Failed, Stopped)]
    {
      hide Books, SafeTrace, Tell, Gaps;
      SetState(Stopped);
      NotifyWaiters(Failed);
      Reply(id, Failed);
    }

    /** A Stop arrived first: it is answered after the start is torn down. */
    method AbortStart(id: Id, stop: Id, late: Option<Child>)
      requires AtStarting(id) && (asked[id] == RunReq || asked[id] == EnsureReadyReq) && stop !in asked
      modifies this
      ensures AtSelect() && !ended && state == Stopped && alive == {} && NoGap(old(trace), trace)
      ensures asked == old(asked)[stop := StopReq]
      ensures answers == Tell(old(answers), old(readyWaiters),
                Told(Aborted, Stopped))[id := Told(Aborted, Stopped)][stop := Told(Ok, Stopped)]
    {
      hide Books, SafeTrace, Tell, Gaps;
      Receive(stop, StopReq);
      LateChildGone(late);
      SetState(Stopped);
      NotifyWaiters(Aborted);
      Reply(id, Aborted);
      Reply(stop, Ok);
    }

    /** doStart may have crossed the finish line before it was cancelled: its child is killed. */
    ghost method LateChildGone(late: Option<Child>)
      requires Views() && state == Starting && alive == {} && !handler
      modifies this`alive, this`trace
      ensures Views() && alive == {} && NoGap(old(trace), trace)
      ensures Gaps(trace) == Gaps(old(trace)) + if IsGap(Snapshot(state, handler, 0)) then 1 else 0
    {
      if late.Some? {
        Spawn(late.value);
        Gone();
      }
    }

    /** Shutdown shows while doStart is still at work; a child it hands over is killed. */
    method ShowShutdown(late: Option<Child>, early: bool)
      requires Views() && state == Starting && alive == {} && !handler
      modifies this`state, this`alive, this`trace
      ensures Views() && state == Shutdown && alive == {} && NoGap(old(trace), trace)
    {
      hide SafeTrace, Gaps;
      if late.Some? && early {
        Spawn(late.value);
      }
      SetState(Shutdown);
      if late.Some? && !early {
        Spawn(late.value);
      }
      Gone();
    }

    /** The parent context ended first: the starter is the one caller left without an answer. */
    method ShutDownStart(id: Id, late: Option<Child>, early: bool)
      requires AtStarting(id) && (asked[id] == RunReq || asked[id] == EnsureReadyReq)
      modifies this
      ensures AtSelect() && ended && inHand == {id} && asked == old(asked) && NoGap(old(trace), trace)
      ensures answers == Tell(old(answers), old(readyWaiters), Told(ShutDown, Shutdown))
    {
      hide Books, SafeTrace, Tell, Gaps;
      ShowShutdown(late, early);
      NotifyWaiters(ShutDown);
      RespondRun(ShutDown);
      ended := true;
    }
  }

  // ----- The book of requests, as values -----

  /** `who` are told one by one. */
  ghost function Tell(answers: map<Id, Told>, who: seq<Id>, told: Told): map<Id, Told> {
    if who == [] then answers else Tell(answers, who[..|who| - 1], told)[who[|who| - 1] := told]
  }

  lemma TellNobody(answers: map<Id, Told>, told: Told)
    ensures Tell(answers, [], told) == answers
  {
  }

  lemma TellOneMore(answers: map<Id, Told>, who: seq<Id>, i: nat, told: Told)
    requires i < |who|
    ensures Tell(answers, who[..i + 1], told) == Tell(answers, who[..i], told)[who[i] := told]
  {
    assert who[..i + 1][..i] == who[..i];
  }

  ghost function TellRun(answers: map<Id, Told>, run: Option<Id>, told: Told): map<Id, Told> {
    if run.Some? then answers[run.value := told] else answers
  }

  ghost predicate Books(waiters: seq<Id>, run: Option<Id>, asked: map<Id, Kind>, answers: map<Id, Told>,
                        inHand: set<Id>) {
    && AllHonest(asked, answers)
    // exactly the parked and those in hand have no answer yet
    && (forall id <- asked :: id !in answers <==> id in waiters || run == Some(id) || id in inHand)
    && (forall i :: 0 <= i < |waiters| ==>
          waiters[i] in asked && asked[waiters[i]] == WaitReadyReq && waiters[i] !in inHand)
    && (forall i, j :: 0 <= i < j < |waiters| ==> waiters[i] != waiters[j])
    && (run.Some? ==> run.value in asked && asked[run.value] == RunReq && run.value !in inHand)
    && (forall id <- inHand :: id in asked)
  }

  lemma BookReceived(waiters: seq<Id>, run: Option<Id>, asked: map<Id, Kind>, answers: map<Id, Told>, inHand: set<Id>,
                     id: Id, kind: Kind)
    requires Books(waiters, run, asked, answers, inHand) && id !in asked
    ensures Books(waiters, run, asked[id := kind], answers, inHand + {id})
  {
  }

  lemma BookReplied(waiters: seq<Id>, run: Option<Id>, asked: map<Id, Kind>, answers: map<Id, Told>, inHand: set<Id>,
                    id: Id, told: Told)
    requires Books(waiters, run, asked, answers, inHand) && id in inHand && Honest(asked[id], told)
    ensures Books(waiters, run, asked, answers[id := told], inHand - {id})
  {
  }

  lemma BookParked(waiters: seq<Id>, run: Option<Id>, asked: map<Id, Kind>, answers: map<Id, Told>, inHand: set<Id>,
                   id: Id)
    requires Books(waiters, run, asked, answers, inHand) && id in inHand && asked[id] == WaitReadyReq
    ensures Books(waiters + [id], run, asked, answers, inHand - {id})
  {
  }

  lemma {:induction false} TellIs(answers: map<Id, Told>, who: seq<Id>, told: Told)
    ensures forall id :: id in Tell(answers, who, told) <==> id in answers || id in who
    ensures forall id <- Tell(answers, who, told) :: Tell(answers, who, told)[id] == if id in who then told
              else answers[id]
  {
    if who != [] {
      var rest := who[..|who| - 1];
      TellIs(answers, rest, told);
      assert forall id :: id in who <==> id in rest || id == who[|who| - 1];
    }
  }

  lemma BookWaiting(waiters: seq<Id>, run: Option<Id>, asked: map<Id, Kind>, answers: map<Id, Told>, inHand: set<Id>,
                    i: nat, told: Told)
    requires Books(waiters, run, asked, answers, inHand) && i < |waiters|
    ensures waiters[i] !in Tell(answers, waiters[..i], told)
  {
    TellIs(answers, waiters[..i], told);
  }

  /** An answer already given is not given again. */
  lemma BookKeeps(waiters: seq<Id>, run: Option<Id>, asked: map<Id, Kind>, answers: map<Id, Told>, inHand: set<Id>)
    requires Books(waiters, run, asked, answers, inHand)
    ensures forall id <- answers :: id in asked
    ensures forall told: Told :: Tell(answers, [], told) == answers
    ensures forall told: Told, id <- answers ::
              id in Tell(answers, waiters, told) && Tell(answers, waiters, told)[id] == answers[id]
    ensures run.Some? ==> run.value !in answers
  {
    forall told: Told
      ensures forall id <- answers :: id in Tell(answers, waiters, told)
                && Tell(answers, waiters, told)[id] == answers[id]
    {
      TellIs(answers, waiters, told);
    }
  }

  lemma BookNotified(waiters: seq<Id>, run: Option<Id>, asked: map<Id, Kind>, answers: map<Id, Told>, inHand: set<Id>,
                     told: Told)
    requires Books(waiters, run, asked, answers, inHand) && (told.answer == Ok ==> told.at == Ready)
    ensures Books([], run, asked, Tell(answers, waiters, told), inHand)
  {
    TellIs(answers, waiters, told);
  }

  /** Once Shutdown shows, it shows for good. */
  lemma {:induction false} ShutdownIsFinal(trace: seq<Snapshot>, i: nat, j: nat)
    requires SafeTrace(trace) && i <= j < |trace| && trace[i].state == Shutdown
    ensures trace[j].state == Shutdown
  {
    if i < j {
      ShutdownIsFinal(trace, i, j - 1);
    }
  }

  /** Between a Ready that others saw and a later Starting, they could see Stopped: no child is started
      while the one before it may be alive. */
  lemma {:induction false} StoppedInBetween(trace: seq<Snapshot>, i: nat, j: nat)
    requires SafeTrace(trace) && i < j < |trace| && trace[i].state == Ready && trace[j].state == Starting
    ensures exists k :: i < k < j && trace[k].state == Stopped && trace[k].alive == 0
  {
    LeavesStopped(trace, i, j);
  }

  lemma {:induction false} LeavesStopped(trace: seq<Snapshot>, i: nat, j: nat)
    requires SafeTrace(trace) && i < j < |trace| && trace[i].state != Starting && trace[j].state == Starting
    ensures exists k :: i <= k < j && trace[k].state == Stopped && trace[k].alive == 0
  {
    if trace[j - 1].state == Starting {
      LeavesStopped(trace, i, j - 1);
    } else {
      assert trace[j - 1].state == Stopped;
    }
  }
}
