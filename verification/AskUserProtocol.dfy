/** Every interleaving of the registry's lock sections.

    A `World` is the registry together with what the threads hold outside of the lock:
    entries taken but not yet sent, resolutions sent, guards, and calls that have passed
    their check but not yet resolved.  One `Action` is one lock section, or one step
    between lock sections.  Actions that are not enabled change nothing.
 */
module AskUserProtocol {
  import opened AskUserModel
  import opened AskUserRegistry
  import opened Wrappers

  datatype Resolution =
    | Answered(answers: Answers) | AutoAnswered(answers: Answers)
    | Rejected | TimedOut | TurnCancelled | SessionShutdown | ExtensionShutdown

  /** The life of a `PendingGuard`: `register` has inserted the entry and emits its event;
      the guard is armed; its drop has run its first lock section; it is dropped; it is
      disarmed; or `register` failed and no guard was made. */
  datatype Guard = Registering | Armed | Dropping | Dropped | Disarmed | NoGuard

  datatype Registration = Registration(key: Key, questions: seq<Question>)

  /** A call to `answer` or `auto_select_recommended` between its two lock sections: the
      registration it looked at, and what it will resolve the key with. */
  datatype Checked = Checked(token: Token, resolution: Resolution)

  datatype World = World(
    registry: Registry,
    log: seq<Registration>,              // every registration made; the token is the index
    guards: seq<Guard>,                  // by token
    taken: map<Token, Resolution>,       // removed under the lock, not yet sent
    delivered: map<Token, Resolution>,   // sent to the receiver
    abandoned: set<Token>,               // removed without a resolution
    calls: map<nat, Checked>)

  const INIT := World(Registry(map[], map[]), [], [], map[], map[], {}, map[])

  datatype Action =
    | Register(key: Key, questions: seq<Question>)
    | EmitOk(token: Token)
    | EmitFailed(token: Token)
    | Reject(key: Key)
    | Timeout(key: Key)
    | CheckAnswer(call: nat, key: Key, answers: Answers)
    | CheckAuto(call: nat, key: Key)
    | ResolveChecked(call: nat)
    | Send(token: Token)
    | DropGuard(token: Token)
    | DropGuardForget(token: Token)
    | Disarm(token: Token)
    | Shutdown(session: Option<string>)

  // ---------------------------------------------------------------- steps

  predicate HasGuard(w: World, t: Token, g: Guard) {
    t < |w.guards| && t < |w.log| && w.guards[t] == g
  }

  predicate IsPending(w: World, t: Token) {
    t < |w.log| && w.registry.Holds(w.log[t].key, t)
  }

  predicate InResolved(w: World, t: Token) {
    t < |w.log| && w.log[t].key in w.registry.resolved && w.registry.resolved[w.log[t].key] == t
  }

  function TakeKey(w: World, key: Key, r: Resolution): World {
    if key !in w.registry.pending then w
    else w.(registry := w.registry.Resolve(key), taken := w.taken[w.registry.pending[key].token := r])
  }

  function DoRegister(w: World, key: Key, questions: seq<Question>): World {
    if key in w.registry.pending then w
    else w.(registry := w.registry.Register(key, PendingEntry(questions, |w.log|)),
            log := w.log + [Registration(key, questions)],
            guards := w.guards + [Registering])
  }

  function DoEmitFailed(w: World, t: Token): World {
    if !HasGuard(w, t, Registering) then w
    else w.(registry := w.registry.Abandon(w.log[t].key, t),
            guards := w.guards[t := NoGuard],
            abandoned := if IsPending(w, t) then w.abandoned + {t} else w.abandoned)
  }

  function DoCheck(w: World, call: nat, key: Key, r: Option<Resolution>): World {
    if r.None? || key !in w.registry.pending then w
    else w.(calls := w.calls[call := Checked(w.registry.pending[key].token, r.value)])
  }

  /** What a passed check lets the call resolve its key with. */
  function AnswerVerdict(w: World, key: Key, answers: Answers): Option<Resolution> {
    if key in w.registry.pending && AnswersOk(w.registry.pending[key].questions, answers)
    then Some(Answered(answers)) else None
  }

  function AutoVerdict(w: World, key: Key): Option<Resolution> {
    if key in w.registry.pending && AllRecommend(w.registry.pending[key].questions)
    then Some(AutoAnswered(Chosen(w.registry.pending[key].questions))) else None
  }

  function DoResolveChecked(w: World, call: nat): World {
    if call !in w.calls || w.calls[call].token >= |w.log| then w
    else TakeKey(w.(calls := w.calls - {call}), w.log[w.calls[call].token].key, w.calls[call].resolution)
  }

  function DoSend(w: World, t: Token): World {
    if t !in w.taken then w
    else w.(taken := w.taken - {t}, delivered := w.delivered[t := w.taken[t]])
  }

  function DoDropGuard(w: World, t: Token): World {
    if !HasGuard(w, t, Armed) then w
    else w.(registry := w.registry.ResolveRegistered(w.log[t].key, t),
            guards := w.guards[t := Dropping],
            taken := if IsPending(w, t) then w.taken[t := TurnCancelled] else w.taken)
  }

  function DoForget(w: World, t: Token, was: Guard, now: Guard): World {
    if !HasGuard(w, t, was) then w
    else w.(registry := w.registry.Forget(w.log[t].key, t), guards := w.guards[t := now])
  }

  /** The tokens that a shutdown takes out of the registry. */
  function ShutTokens(w: World, session: Option<string>): set<Token> {
    set k | k in w.registry.KeysOf(session) :: w.registry.pending[k].token
  }

  function DoShutdown(w: World, session: Option<string>): World {
    var r := if session.None? then ExtensionShutdown else SessionShutdown;
    w.(registry := w.registry.Shutdown(session),
       taken := w.taken + map t | t in ShutTokens(w, session) :: r)
  }

  function Step(w: World, a: Action): World {
    match a
    case Register(key, questions) => DoRegister(w, key, questions)
    case EmitOk(t) => if HasGuard(w, t, Registering) then w.(guards := w.guards[t := Armed]) else w
    case EmitFailed(t) => DoEmitFailed(w, t)
    case Reject(key) => TakeKey(w, key, Rejected)
    case Timeout(key) => TakeKey(w, key, TimedOut)
    case CheckAnswer(call, key, answers) => DoCheck(w, call, key, AnswerVerdict(w, key, answers))
    case CheckAuto(call, key) => DoCheck(w, call, key, AutoVerdict(w, key))
    case ResolveChecked(call) => DoResolveChecked(w, call)
    case Send(t) => DoSend(w, t)
    case DropGuard(t) => DoDropGuard(w, t)
    case DropGuardForget(t) => DoForget(w, t, Dropping, Dropped)
    case Disarm(t) => if t in w.delivered then DoForget(w, t, Armed, Disarmed) else w
    case Shutdown(session) => DoShutdown(w, session)
  }

  function Run(w: World, actions: seq<Action>): World
    decreases |actions|
  {
    if actions == [] then w else Run(Step(w, actions[0]), actions[1..])
  }

  // ---------------------------------------------------------------- invariant

  /** Registry entries carry the token and the questions of their own registration, and no
      key is both pending and resolved. */
  ghost predicate Keyed(w: World) {
    && |w.guards| == |w.log|
    && (forall k | k in w.registry.pending ::
          var t := w.registry.pending[k].token;
          t < |w.log| && w.log[t] == Registration(k, w.registry.pending[k].questions))
    && (forall k | k in w.registry.resolved ::
          var t := w.registry.resolved[k];
          t < |w.log| && w.log[t].key == k && (t in w.taken || t in w.delivered))
    && w.registry.pending.Keys !! w.registry.resolved.Keys
  }

  ghost predicate ExactlyOne(a: bool, b: bool, c: bool, d: bool) {
    && (a || b || c || d)
    && !(a && b) && !(a && c) && !(a && d) && !(b && c) && !(b && d) && !(c && d)
  }

  /** Every token made is in exactly one phase, and no other token is anywhere. */
  ghost predicate Phased(w: World) {
    && (forall t: Token :: t in w.taken || t in w.delivered || t in w.abandoned ==> t < |w.log|)
    && (forall t: Token :: t < |w.log| ==>
          ExactlyOne(IsPending(w, t), t in w.taken, t in w.delivered, t in w.abandoned))
  }

  /** What a guard's state says about its token. */
  ghost predicate Guarded(w: World) {
    && |w.guards| == |w.log|
    && (forall t: Token :: t < |w.log| && w.guards[t].Dropping? ==> !IsPending(w, t))
    && (forall t: Token :: t < |w.log| && (w.guards[t].Dropped? || w.guards[t].Disarmed?) ==>
          !IsPending(w, t) && !InResolved(w, t))
    && (forall t: Token :: t in w.abandoned ==> t < |w.log| && w.guards[t].NoGuard?)
  }

  /** A call that passed its check holds answers that the registration it saw accepts. */
  ghost predicate CallsChecked(w: World) {
    forall c | c in w.calls ::
      var checked := w.calls[c];
      && checked.token < |w.log|
      && match checked.resolution
         case Answered(answers) => AnswersOk(w.log[checked.token].questions, answers)
         case AutoAnswered(answers) =>
           InputOk(w.log[checked.token].questions) ==> AnswersOk(w.log[checked.token].questions, answers)
         case _ => true
  }

  ghost predicate Inv(w: World) {
    Keyed(w) && Phased(w) && Guarded(w) && CallsChecked(w)
  }

  // ---------------------------------------------------------------- preservation

  /** Calls stay checked as long as the log only grows. */
  lemma CallsStayChecked(w: World, w': World)
    requires CallsChecked(w) && w.log <= w'.log
    requires forall c | c in w'.calls :: c in w.calls && w'.calls[c] == w.calls[c]
    ensures CallsChecked(w')
  {
    hide AnswersOk, InputOk;
    forall c | c in w'.calls ensures w'.log[w'.calls[c].token] == w.log[w.calls[c].token] {}
  }

  lemma RegisterPending(w: World, key: Key, questions: seq<Question>)
    requires Keyed(w) && key !in w.registry.pending
    ensures var w' := DoRegister(w, key, questions);
            && IsPending(w', |w.log|)
            && (forall t: Token :: t != |w.log| ==> IsPending(w', t) == IsPending(w, t))
            && (forall t: Token :: InResolved(w', t) ==> InResolved(w, t))
  {
    var w' := DoRegister(w, key, questions);
    assert w'.log[|w.log|] == Registration(key, questions);
    forall t: Token | t < |w.log| ensures w'.log[t] == w.log[t] {}
  }

  lemma RegisterKeyed(w: World, key: Key, questions: seq<Question>)
    requires Keyed(w) && key !in w.registry.pending
    ensures Keyed(DoRegister(w, key, questions))
  {
  }

  lemma RegisterPhased(w: World, key: Key, questions: seq<Question>)
    requires Keyed(w) && Phased(w) && key !in w.registry.pending
    ensures Phased(DoRegister(w, key, questions))
  {
    hide Keyed;
    RegisterPending(w, key, questions);
    hide IsPending;
  }

  lemma RegisterKeeps(w: World, key: Key, questions: seq<Question>)
    requires Inv(w)
    ensures Inv(DoRegister(w, key, questions))
  {
    hide CallsChecked, Keyed, Phased, IsPending, InResolved;
    if key !in w.registry.pending {
      RegisterPending(w, key, questions);
      RegisterKeyed(w, key, questions);
      RegisterPhased(w, key, questions);
      CallsStayChecked(w, DoRegister(w, key, questions));
      assert |w.log| !in w.abandoned;
    }
  }

  lemma TakePending(w: World, key: Key, r: Resolution)
    requires Keyed(w) && key in w.registry.pending
    ensures var w' := TakeKey(w, key, r);
            var taken := w.registry.pending[key].token;
            && IsPending(w, taken) && !IsPending(w', taken)
            && forall t: Token :: t != taken ==> IsPending(w', t) == IsPending(w, t)
  {
  }

  lemma TakeKeyed(w: World, key: Key, r: Resolution)
    requires Keyed(w) && key in w.registry.pending
    ensures Keyed(TakeKey(w, key, r))
  {
  }

  lemma TakePhased(w: World, key: Key, r: Resolution)
    requires Keyed(w) && Phased(w) && key in w.registry.pending
    ensures Phased(TakeKey(w, key, r))
  {
    hide Keyed, IsPending;
    TakePending(w, key, r);
    var w' := TakeKey(w, key, r);
    var taken := w.registry.pending[key].token;
    assert taken < |w.log| by { TakenInLog(w, key); }
    forall t: Token | t < |w.log|
      ensures ExactlyOne(IsPending(w', t), t in w'.taken, t in w'.delivered, t in w'.abandoned)
    {
      assert ExactlyOne(IsPending(w, t), t in w.taken, t in w.delivered, t in w.abandoned);
    }
  }

  lemma TakenInLog(w: World, key: Key)
    requires Keyed(w) && key in w.registry.pending
    ensures w.registry.pending[key].token < |w.log|
  {
  }

  lemma TakeGuarded(w: World, key: Key, r: Resolution)
    requires Keyed(w) && Guarded(w) && key in w.registry.pending
    ensures Guarded(TakeKey(w, key, r))
  {
    TakePending(w, key, r);
    var w' := TakeKey(w, key, r);
    var taken := w.registry.pending[key].token;
    forall t: Token | t < |w.log| && t != taken ensures InResolved(w', t) ==> InResolved(w, t) {}
  }

  lemma TakeKeyKeeps(w: World, key: Key, r: Resolution)
    requires Inv(w)
    ensures Inv(TakeKey(w, key, r))
  {
    hide Keyed, Phased, Guarded, CallsChecked;
    if key in w.registry.pending {
      TakeKeyed(w, key, r);
      TakePhased(w, key, r);
      TakeGuarded(w, key, r);
      CallsStayChecked(w, TakeKey(w, key, r));
    }
  }

  /** A guard may change its state to any that fits its token. */
  lemma GuardChangeKeeps(w: World, t: Token, g: Guard)
    requires Inv(w) && t < |w.log| && !w.guards[t].NoGuard?
    requires g.Dropping? ==> !IsPending(w, t)
    requires g.Dropped? || g.Disarmed? ==> !IsPending(w, t) && !InResolved(w, t)
    ensures Inv(w.(guards := w.guards[t := g]))
  {
    hide CallsChecked;
    var w' := w.(guards := w.guards[t := g]);
    CallsStayChecked(w, w');
    forall u: Token ensures IsPending(w', u) == IsPending(w, u) && InResolved(w', u) == InResolved(w, u) {}
  }

  /** A registration whose event could not be emitted is taken out without a resolution. */
  lemma AbandonKeeps(w: World, t: Token)
    requires Inv(w) && IsPending(w, t) && w.guards[t].NoGuard?
    ensures Inv(w.(registry := w.registry.Abandon(w.log[t].key, t), abandoned := w.abandoned + {t}))
  {
    hide CallsChecked;
    var w' := w.(registry := w.registry.Abandon(w.log[t].key, t), abandoned := w.abandoned + {t});
    CallsStayChecked(w, w');
    forall u: Token | u != t ensures IsPending(w', u) == IsPending(w, u) {}
    forall u: Token ensures InResolved(w', u) == InResolved(w, u) {}
    assert !IsPending(w', t);
  }

  lemma EmitFailedKeeps(w: World, t: Token)
    requires Inv(w)
    ensures Inv(DoEmitFailed(w, t))
  {
    if HasGuard(w, t, Registering) {
      var w1 := w.(guards := w.guards[t := NoGuard]);
      GuardChangeKeeps(w, t, NoGuard);
      hide Inv;
      if IsPending(w, t) {
        AbandonKeeps(w1, t);
      }
    }
  }

  lemma CheckKeeps(w: World, call: nat, key: Key, r: Option<Resolution>)
    requires Inv(w)
    requires r.Some? ==>
               && key in w.registry.pending
               && match r.value
                  case Answered(answers) => AnswersOk(w.registry.pending[key].questions, answers)
                  case AutoAnswered(answers) =>
                    InputOk(w.registry.pending[key].questions) ==> AnswersOk(w.registry.pending[key].questions, answers)
                  case _ => true
    ensures Inv(DoCheck(w, call, key, r))
  {
    hide AnswersOk, InputOk;
    var w' := DoCheck(w, call, key, r);
    forall u: Token ensures IsPending(w', u) == IsPending(w, u) && InResolved(w', u) == InResolved(w, u) {}
  }

  lemma AutoVerdictChecked(w: World, key: Key)
    requires AutoVerdict(w, key).Some?
    ensures InputOk(w.registry.pending[key].questions) ==>
              AnswersOk(w.registry.pending[key].questions, AutoVerdict(w, key).value.answers)
  {
    var questions := w.registry.pending[key].questions;
    if InputOk(questions) { AutoAnswersPassValidation(questions); }
  }

  lemma SendKeeps(w: World, t: Token)
    requires Inv(w)
    ensures Inv(DoSend(w, t))
  {
    hide CallsChecked;
    var w' := DoSend(w, t);
    CallsStayChecked(w, w');
    forall u: Token ensures IsPending(w', u) == IsPending(w, u) && InResolved(w', u) == InResolved(w, u) {}
    if t in w.taken {
      forall u: Token | u < |w.log|
        ensures ExactlyOne(IsPending(w', u), u in w'.taken, u in w'.delivered, u in w'.abandoned)
      {
        assert ExactlyOne(IsPending(w, u), u in w.taken, u in w.delivered, u in w.abandoned);
      }
    }
  }

  lemma DropGuardKeeps(w: World, t: Token)
    requires Inv(w)
    ensures Inv(DoDropGuard(w, t))
  {
    if HasGuard(w, t, Armed) {
      var key := w.log[t].key;
      var w1 := if IsPending(w, t) then TakeKey(w, key, TurnCancelled) else w;
      TakeKeyKeeps(w, key, TurnCancelled);
      if IsPending(w, t) { TakePending(w, key, TurnCancelled); }
      GuardChangeKeeps(w1, t, Dropping);
      hide Inv;
      assert DoDropGuard(w, t) == w1.(guards := w1.guards[t := Dropping]);
    }
  }

  lemma ForgottenKeeps(w: World, t: Token)
    requires Inv(w) && t < |w.log|
    ensures var w' := w.(registry := w.registry.Forget(w.log[t].key, t));
            Inv(w') && !InResolved(w', t) && IsPending(w', t) == IsPending(w, t)
  {
    hide CallsChecked;
    var w' := w.(registry := w.registry.Forget(w.log[t].key, t));
    CallsStayChecked(w, w');
    forall u: Token ensures IsPending(w', u) == IsPending(w, u) {}
    forall u: Token ensures InResolved(w', u) ==> InResolved(w, u) {}
  }

  lemma ForgetKeeps(w: World, t: Token, was: Guard, now: Guard)
    requires Inv(w)
    requires HasGuard(w, t, was) ==> !IsPending(w, t)
    requires !was.NoGuard? && (now.Dropped? || now.Disarmed?)
    ensures Inv(DoForget(w, t, was, now))
  {
    hide Inv;
    if HasGuard(w, t, was) {
      ForgottenKeeps(w, t);
      GuardChangeKeeps(w.(registry := w.registry.Forget(w.log[t].key, t)), t, now);
    }
  }

  lemma ShutdownPending(w: World, session: Option<string>)
    requires Keyed(w)
    ensures forall t: Token :: t in ShutTokens(w, session) ==> IsPending(w, t)
    ensures forall t: Token :: IsPending(DoShutdown(w, session), t) <==> IsPending(w, t) && t !in ShutTokens(w, session)
    ensures forall t: Token :: InResolved(DoShutdown(w, session), t) ==> InResolved(w, t)
  {
    var w' := DoShutdown(w, session);
    var gone := ShutTokens(w, session);
    forall t: Token
      ensures t in gone ==> IsPending(w, t)
      ensures IsPending(w', t) <==> IsPending(w, t) && t !in gone
    {
      if t in gone {
        var k :| k in w.registry.KeysOf(session) && w.registry.pending[k].token == t;
      } else if IsPending(w, t) {
        assert w.log[t].key !in w.registry.KeysOf(session);
      }
    }
  }

  lemma ShutdownKeyed(w: World, session: Option<string>)
    requires Keyed(w)
    ensures Keyed(DoShutdown(w, session))
  {
  }

  lemma ShutdownPhased(w: World, session: Option<string>)
    requires Keyed(w) && Phased(w)
    ensures Phased(DoShutdown(w, session))
  {
    hide Keyed;
    ShutdownPending(w, session);
    hide IsPending, ShutTokens;
    var w' := DoShutdown(w, session);
    forall t: Token | t < |w.log|
      ensures ExactlyOne(IsPending(w', t), t in w'.taken, t in w'.delivered, t in w'.abandoned)
    {
      assert ExactlyOne(IsPending(w, t), t in w.taken, t in w.delivered, t in w.abandoned);
    }
    forall t: Token | t in ShutTokens(w, session) ensures t < |w.log| { PendingInLog(w, t); }
  }

  lemma PendingInLog(w: World, t: Token)
    requires IsPending(w, t)
    ensures t < |w.log|
  {
  }

  lemma ShutdownKeeps(w: World, session: Option<string>)
    requires Inv(w)
    ensures Inv(DoShutdown(w, session))
  {
    hide Keyed, Phased, CallsChecked, IsPending, InResolved, ShutTokens;
    ShutdownKeyed(w, session);
    ShutdownPhased(w, session);
    ShutdownPending(w, session);
    CallsStayChecked(w, DoShutdown(w, session));
  }

  lemma StepKeeps(w: World, a: Action)
    requires Inv(w)
    ensures Inv(Step(w, a))
  {
    hide Inv, DoRegister, DoEmitFailed, TakeKey, DoSend, DoDropGuard, DoForget, DoShutdown, DoCheck, AnswersOk, InputOk;
    match a
    case Register(key, questions) => RegisterKeeps(w, key, questions);
    case EmitOk(t) => if HasGuard(w, t, Registering) { GuardChangeKeeps(w, t, Armed); }
    case EmitFailed(t) => EmitFailedKeeps(w, t);
    case Reject(key) => TakeKeyKeeps(w, key, Rejected);
    case Timeout(key) => TakeKeyKeeps(w, key, TimedOut);
    case CheckAnswer(call, key, answers) => CheckKeeps(w, call, key, AnswerVerdict(w, key, answers));
    case CheckAuto(call, key) =>
      if AutoVerdict(w, key).Some? { AutoVerdictChecked(w, key); }
      CheckKeeps(w, call, key, AutoVerdict(w, key));
    case ResolveChecked(call) => ResolveCheckedKeeps(w, call);
    case Send(t) => SendKeeps(w, t);
    case DropGuard(t) => DropGuardKeeps(w, t);
    case DropGuardForget(t) => DroppingNotPending(w, t); ForgetKeeps(w, t, Dropping, Dropped);
    case Disarm(t) =>
      if t in w.delivered { DeliveredNotPending(w, t); ForgetKeeps(w, t, Armed, Disarmed); }
    case Shutdown(session) => ShutdownKeeps(w, session);
  }

  lemma ResolveCheckedKeeps(w: World, call: nat)
    requires Inv(w)
    ensures Inv(DoResolveChecked(w, call))
  {
    hide CallsChecked, TakeKey;
    if call in w.calls && w.calls[call].token < |w.log| {
      var w' := w.(calls := w.calls - {call});
      CallsStayChecked(w, w');
      forall u: Token ensures IsPending(w', u) == IsPending(w, u) && InResolved(w', u) == InResolved(w, u) {}
      TakeKeyKeeps(w', w.log[w.calls[call].token].key, w.calls[call].resolution);
    }
  }

  lemma DroppingNotPending(w: World, t: Token)
    requires Inv(w)
    ensures HasGuard(w, t, Dropping) ==> !IsPending(w, t)
  {
  }

  lemma DeliveredNotPending(w: World, t: Token)
    requires Inv(w) && t in w.delivered
    ensures !IsPending(w, t)
  {
  }

  /** In every interleaving each registration is in exactly one phase, pending and resolved
      keys stay apart, and a guard that is gone has left no trace in either map. */
  lemma {:induction false} EveryInterleavingKeeps(w: World, actions: seq<Action>)
    requires Inv(w)
    ensures Inv(Run(w, actions))
    decreases |actions|
  {
    hide Inv, Step;
    if actions != [] {
      StepKeeps(w, actions[0]);
      EveryInterleavingKeeps(Step(w, actions[0]), actions[1..]);
    }
  }

  lemma InitHolds()
    ensures Inv(INIT)
  {
  }

  // ---------------------------------------------------------------- at most one resolution

  /** How a registration was resolved, sent or still to be sent. */
  function ResolutionOf(w: World, t: Token): Option<Resolution> {
    if t in w.taken then Some(w.taken[t])
    else if t in w.delivered then Some(w.delivered[t])
    else None
  }

  lemma TakeKeySpares(w: World, key: Key, r: Resolution, t: Token)
    requires Inv(w) && ResolutionOf(w, t).Some?
    ensures ResolutionOf(TakeKey(w, key, r), t) == ResolutionOf(w, t)
    ensures t in w.delivered ==> t in TakeKey(w, key, r).delivered
  {
    hide CallsChecked, Guarded;
    if key in w.registry.pending {
      assert IsPending(w, w.registry.pending[key].token);
    }
  }

  lemma ShutdownSpares(w: World, session: Option<string>, t: Token)
    requires Inv(w) && ResolutionOf(w, t).Some?
    ensures ResolutionOf(DoShutdown(w, session), t) == ResolutionOf(w, t)
  {
    hide CallsChecked, Guarded;
    ShutdownPending(w, session);
  }

  lemma ResolutionStaysOneStep(w: World, a: Action, t: Token)
    requires Inv(w) && ResolutionOf(w, t).Some?
    ensures ResolutionOf(Step(w, a), t) == ResolutionOf(w, t)
    ensures t in w.delivered ==> t in Step(w, a).delivered
  {
    hide TakeKey, DoShutdown, DoCheck, CallsChecked, Guarded;
    match a
    case CheckAnswer(call, key, answers) => CheckSpares(w, call, key, AnswerVerdict(w, key, answers), t);
    case CheckAuto(call, key) => CheckSpares(w, call, key, AutoVerdict(w, key), t);
    case Reject(key) => TakeKeySpares(w, key, Rejected, t);
    case Timeout(key) => TakeKeySpares(w, key, TimedOut, t);
    case ResolveChecked(call) =>
      if call in w.calls && w.calls[call].token < |w.log| {
        var w' := w.(calls := w.calls - {call});
        assert Inv(w') by { CalllessKeeps(w, call); }
        TakeKeySpares(w', w.log[w.calls[call].token].key, w.calls[call].resolution, t);
      }
    case Shutdown(session) => ShutdownSpares(w, session, t); ShutdownDelivered(w, session);
    case _ =>
  }

  lemma CheckSpares(w: World, call: nat, key: Key, r: Option<Resolution>, t: Token)
    ensures ResolutionOf(DoCheck(w, call, key, r), t) == ResolutionOf(w, t)
    ensures DoCheck(w, call, key, r).delivered == w.delivered
  {
  }

  lemma ShutdownDelivered(w: World, session: Option<string>)
    ensures DoShutdown(w, session).delivered == w.delivered
  {
  }

  lemma CalllessKeeps(w: World, call: nat)
    requires Inv(w)
    ensures Inv(w.(calls := w.calls - {call}))
  {
    hide CallsChecked;
    var w' := w.(calls := w.calls - {call});
    CallsStayChecked(w, w');
    forall u: Token ensures IsPending(w', u) == IsPending(w, u) && InResolved(w', u) == InResolved(w, u) {}
  }

  /** A registration is resolved at most once: its resolution never changes again, and
      what was delivered stays delivered. */
  lemma {:induction false} AtMostOneResolution(w: World, actions: seq<Action>, t: Token)
    requires Inv(w) && ResolutionOf(w, t).Some?
    ensures ResolutionOf(Run(w, actions), t) == ResolutionOf(w, t)
    ensures t in w.delivered ==> t in Run(w, actions).delivered
    decreases |actions|
  {
    hide Inv, Step, ResolutionOf;
    if actions != [] {
      StepKeeps(w, actions[0]);
      ResolutionStaysOneStep(w, actions[0], t);
      AtMostOneResolution(Step(w, actions[0]), actions[1..], t);
    }
  }

  // ---------------------------------------------------------------- guards

  /** Whatever the guard of one registration does, every other registration keeps its
      place in both maps, its resolution and its guard. */
  lemma GuardSparesOthers(w: World, t: Token, u: Token, a: Action)
    requires Inv(w) && u != t
    requires a in {EmitFailed(t), DropGuard(t), DropGuardForget(t), Disarm(t)}
    ensures Spares(w, Step(w, a), u)
  {
    hide Inv, Spares, DoEmitFailed, DoDropGuard, DoForget;
    SparesItself(w, u);
    match a
    case EmitFailed(_) => EmitFailedSpares(w, t, u);
    case DropGuard(_) => DropGuardSpares(w, t, u);
    case DropGuardForget(_) => ForgetSpares(w, t, u, Dropping, Dropped);
    case Disarm(_) => ForgetSpares(w, t, u, Armed, Disarmed);
  }

  /** From `w` to `w'`, nothing changes for `u`. */
  ghost predicate Spares(w: World, w': World, u: Token) {
    && IsPending(w', u) == IsPending(w, u) && InResolved(w', u) == InResolved(w, u)
    && ResolutionOf(w', u) == ResolutionOf(w, u)
    && forall g :: HasGuard(w', u, g) == HasGuard(w, u, g)
  }

  lemma SparesItself(w: World, u: Token)
    ensures Spares(w, w, u)
  {
  }

  lemma EmitFailedSpares(w: World, t: Token, u: Token)
    requires u != t
    ensures Spares(w, DoEmitFailed(w, t), u)
  {
  }

  lemma DropGuardSpares(w: World, t: Token, u: Token)
    requires Inv(w) && u != t
    ensures Spares(w, DoDropGuard(w, t), u)
  {
    hide CallsChecked, Phased, Guarded;
  }

  lemma ForgetSpares(w: World, t: Token, u: Token, was: Guard, now: Guard)
    requires u != t
    ensures Spares(w, DoForget(w, t, was, now), u)
  {
  }

  ghost predicate Gone(w: World, t: Token) {
    HasGuard(w, t, Dropped) || HasGuard(w, t, Disarmed)
  }

  lemma GoneStaysOneStep(w: World, a: Action, t: Token)
    requires Inv(w) && Gone(w, t)
    ensures Gone(Step(w, a), t)
  {
    hide CallsChecked, Phased, Keyed;
  }

  /** Once a guard is dropped, or disarmed after its resolution arrived, its registration
      appears in neither map, in any later state. */
  lemma {:induction false} GoneForGood(w: World, actions: seq<Action>, t: Token)
    requires Inv(w) && Gone(w, t)
    ensures var w' := Run(w, actions);
            && !IsPending(w', t) && !InResolved(w', t)
            && (forall k | k in w'.registry.pending :: w'.registry.pending[k].token != t)
            && (forall k | k in w'.registry.resolved :: w'.registry.resolved[k] != t)
    decreases |actions|
  {
    if actions == [] {
      hide CallsChecked, Phased;
    } else {
      hide Inv, Step, Gone, IsPending, InResolved;
      StepKeeps(w, actions[0]);
      GoneStaysOneStep(w, actions[0], t);
      GoneForGood(Step(w, actions[0]), actions[1..], t);
    }
  }

  // ---------------------------------------------------------------- waiting

  /** A handler that holds its guard and no longer finds its question pending has been
      resolved: its receiver has a value or is about to get one. */
  lemma WaitingIsServed(w: World, t: Token)
    requires Inv(w) && HasGuard(w, t, Armed) && !IsPending(w, t)
    ensures ResolutionOf(w, t).Some?
    ensures t in DoSend(w, t).delivered
  {
    hide CallsChecked, Keyed;
    assert ExactlyOne(IsPending(w, t), t in w.taken, t in w.delivered, t in w.abandoned);
  }

  // ---------------------------------------------------------------- the registry at work

  /** One action, carried out by the registry's methods: the state outside of the lock
      changes by what they return. */
  method Perform(registry: PendingRegistry, w: World, a: Action) returns (w': World)
    requires registry.Value() == w.registry
    modifies registry
    ensures w' == Step(w, a)
    ensures registry.Value() == w'.registry
  {
    hide AnswersOk, AllRecommend, Chosen;
    w' := w;
    match a
    case Register(key, questions) =>
      var ok := registry.Register(key, questions, |w.log|);
      if ok {
        w' := w.(registry := registry.Value(), log := w.log + [Registration(key, questions)],
                 guards := w.guards + [Registering]);
      }
    case EmitOk(t) =>
      if HasGuard(w, t, Registering) {
        w' := w.(guards := w.guards[t := Armed]);
      }
    case EmitFailed(t) =>
      if HasGuard(w, t, Registering) {
        w' := w.(guards := w.guards[t := NoGuard],
                 abandoned := if IsPending(w, t) then w.abandoned + {t} else w.abandoned);
        registry.AbandonRegistered(w.log[t].key, t);
        w' := w'.(registry := registry.Value());
      }
    case Reject(key) =>
      w' := Take(registry, w, key, Rejected);
    case Timeout(key) =>
      w' := Take(registry, w, key, TimedOut);
    case CheckAnswer(call, key, answers) =>
      var checked := registry.Check(key, answers);
      if checked.Ok? {
        w' := w.(calls := w.calls[call := Checked(registry.pending[key].token, Answered(answers))]);
      }
    case CheckAuto(call, key) =>
      var checked := registry.CheckRecommended(key);
      if checked.Ok? {
        w' := w.(calls := w.calls[call := Checked(registry.pending[key].token, AutoAnswered(checked.value))]);
      }
    case ResolveChecked(call) =>
      if call in w.calls && w.calls[call].token < |w.log| {
        w' := Take(registry, w.(calls := w.calls - {call}), w.log[w.calls[call].token].key, w.calls[call].resolution);
      }
    case Send(t) =>
      w' := DoSend(w, t);
    case DropGuard(t) =>
      if HasGuard(w, t, Armed) {
        var entry := registry.ResolveRegistered(w.log[t].key, t);
        w' := w.(registry := registry.Value(), guards := w.guards[t := Dropping]);
        if entry.Some? {
          w' := w'.(taken := w.taken[entry.value.token := TurnCancelled]);
        }
      }
    case DropGuardForget(t) =>
      w' := ForgetGuard(registry, w, t, Dropping, Dropped);
    case Disarm(t) =>
      if t in w.delivered {
        w' := ForgetGuard(registry, w, t, Armed, Disarmed);
      }
    case Shutdown(session) =>
      w' := ShutDown(registry, w, session);
  }

  method ShutDown(registry: PendingRegistry, w: World, session: Option<string>) returns (w': World)
    requires registry.Value() == w.registry
    modifies registry
    ensures w' == DoShutdown(w, session)
    ensures registry.Value() == w'.registry
  {
    var r := if session.None? then ExtensionShutdown else SessionShutdown;
    var entries := registry.Shutdown(session);
    var tokens := set k | k in entries :: entries[k].token;
    assert tokens == ShutTokens(w, session) by { DrainedTokens(w, session, entries); }
    w' := w.(registry := registry.Value(), taken := w.taken + map t | t in tokens :: r);
  }

  lemma DrainedTokens(w: World, session: Option<string>, entries: map<Key, PendingEntry>)
    requires entries.Keys == w.registry.KeysOf(session) && forall k | k in entries :: entries[k] == w.registry.pending[k]
    ensures (set k | k in entries :: entries[k].token) == ShutTokens(w, session)
  {
    forall t: Token
      ensures t in (set k | k in entries :: entries[k].token) <==> t in ShutTokens(w, session)
    {
      if t in ShutTokens(w, session) {
        var k :| k in w.registry.KeysOf(session) && w.registry.pending[k].token == t;
        assert k in entries && entries[k].token == t;
      }
    }
  }

  /** `resolve`: the entry taken out under the lock keeps its resolution until it is sent. */
  method Take(registry: PendingRegistry, w: World, key: Key, r: Resolution) returns (w': World)
    requires registry.Value() == w.registry
    modifies registry
    ensures w' == TakeKey(w, key, r)
    ensures registry.Value() == w'.registry
  {
    var entry := registry.Resolve(key);
    if entry.Ok? {
      w' := w.(registry := registry.Value(), taken := w.taken[entry.value.token := r]);
    } else {
      w' := w;
    }
  }

  method ForgetGuard(registry: PendingRegistry, w: World, t: Token, was: Guard, now: Guard) returns (w': World)
    requires registry.Value() == w.registry
    modifies registry
    ensures w' == DoForget(w, t, was, now)
    ensures registry.Value() == w'.registry
  {
    if HasGuard(w, t, was) {
      registry.ForgetResolved(w.log[t].key, t);
      w' := w.(registry := registry.Value(), guards := w.guards[t := now]);
    } else {
      w' := w;
    }
  }

  /** A whole history: the registry's methods follow the run that the theorems are about,
      so its two maps never share a key and hold only registrations that were made. */
  method PerformAll(actions: seq<Action>) returns (registry: PendingRegistry, w: World)
    ensures fresh(registry) && w == Run(INIT, actions) && registry.Value() == w.registry
    ensures registry.pending.Keys !! registry.resolved.Keys
    ensures forall k | k in registry.pending ::
              var t := registry.pending[k].token;
              t < |w.log| && w.log[t] == Registration(k, registry.pending[k].questions) && ResolutionOf(w, t).None?
  {
    hide Step;
    registry := new PendingRegistry();
    w := INIT;
    assert actions[0..] == actions;
    for i := 0 to |actions|
      invariant fresh(registry) && registry.Value() == w.registry
      invariant Run(w, actions[i..]) == Run(INIT, actions)
    {
      assert actions[i..][0] == actions[i] && actions[i..][1..] == actions[i + 1..];
      w := Perform(registry, w, actions[i]);
    }
    InitHolds();
    EveryInterleavingKeeps(INIT, actions);
    PendingIsOpen(w);
  }

  lemma PendingIsOpen(w: World)
    requires Inv(w)
    ensures w.registry.pending.Keys !! w.registry.resolved.Keys
    ensures forall k | k in w.registry.pending ::
              var t := w.registry.pending[k].token;
              t < |w.log| && w.log[t] == Registration(k, w.registry.pending[k].questions) && ResolutionOf(w, t).None?
  {
    hide CallsChecked, Guarded;
    forall k | k in w.registry.pending
      ensures ResolutionOf(w, w.registry.pending[k].token).None?
    {
      var t := w.registry.pending[k].token;
      assert IsPending(w, t);
      assert ExactlyOne(IsPending(w, t), t in w.taken, t in w.delivered, t in w.abandoned);
    }
  }
}
