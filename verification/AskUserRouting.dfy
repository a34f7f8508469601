/** Which registration a resolution reaches.  `answer` and `auto_select_recommended` check
    under one lock and resolve by key under another, and `timeout` resolves by key; so each
    can reach a registration of the same key made in between.
 */
module AskUserRouting {
  import opened AskUserModel
  import opened AskUserRegistry
  import opened AskUserProtocol
  import opened Wrappers

  // ---------------------------------------------------------------- one step

  /** The key of `t` is free, or still pending under `t` itself. */
  ghost predicate Owned(w: World, t: Token) {
    t < |w.log| && (w.log[t].key in w.registry.pending ==> w.registry.pending[w.log[t].key].token == t)
  }

  /** From `w` to `w'`, no registration but `t` is resolved. */
  ghost predicate ResolvesAtMost(w: World, w': World, t: Token) {
    forall u: Token :: u != t && ResolutionOf(w, u).None? ==> ResolutionOf(w', u).None?
  }

  /** What is delivered to a registration fits its own questions. */
  predicate Fits(questions: seq<Question>, r: Resolution) {
    match r
    case Answered(answers) => AnswersOk(questions, answers)
    case AutoAnswered(answers) => InputOk(questions) ==> AnswersOk(questions, answers)
    case _ => true
  }

  lemma TakeReachesExactly(w: World, key: Key, r: Resolution, u: Token)
    requires Inv(w)
    ensures ResolutionOf(TakeKey(w, key, r), u)
         == if IsPending(w, u) && w.log[u].key == key then Some(r) else ResolutionOf(w, u)
  {
    hide CallsChecked, Guarded;
    if IsPending(w, u) && w.log[u].key == key {
      assert ExactlyOne(IsPending(w, u), u in w.taken, u in w.delivered, u in w.abandoned);
    }
  }

  /** The second lock section of a checked call resolves nothing but the registration it
      checked exactly when the key is free or still pending under that registration.  If
      that is pending, it gets what was checked against it. */
  lemma ResolvesOnlyCheckedExactly(w: World, call: nat)
    requires Inv(w) && call in w.calls
    ensures var t := w.calls[call].token;
            ResolvesAtMost(w, Step(w, ResolveChecked(call)), t) <==> Owned(w, t)
    ensures var t := w.calls[call].token;
            IsPending(w, t) ==>
              && ResolutionOf(Step(w, ResolveChecked(call)), t) == Some(w.calls[call].resolution)
              && Fits(w.log[t].questions, w.calls[call].resolution)
  {
    hide Phased, Guarded, AnswersOk, InputOk, TakeKey, ResolutionOf;
    var t, r := w.calls[call].token, w.calls[call].resolution;
    assert t < |w.log|;
    var key := w.log[t].key;
    var open := w.(calls := w.calls - {call});
    CalllessKeeps(w, call);
    var w' := TakeKey(open, key, r);
    forall u: Token
      ensures ResolutionOf(w', u) == if IsPending(w, u) && w.log[u].key == key then Some(r) else ResolutionOf(w, u)
    {
      TakeReachesExactly(open, key, r, u);
      SameOutside(w, open, u);
    }
    if key in w.registry.pending {
      var u := w.registry.pending[key].token;
      assert IsPending(w, u) && w.log[u].key == key;
      PendingIsOpen(w);
    }
  }

  lemma SameOutside(w: World, open: World, u: Token)
    requires open == w.(calls := open.calls)
    ensures IsPending(open, u) == IsPending(w, u) && ResolutionOf(open, u) == ResolutionOf(w, u)
  {
  }

  /** A rejection and a timeout reach the registration pending under their key, if there is
      one, and no other. */
  lemma ByKeyReachesExactly(w: World, key: Key, u: Token)
    requires Inv(w)
    ensures ResolutionOf(Step(w, Reject(key)), u)
         == if IsPending(w, u) && w.log[u].key == key then Some(Rejected) else ResolutionOf(w, u)
    ensures ResolutionOf(Step(w, Timeout(key)), u)
         == if IsPending(w, u) && w.log[u].key == key then Some(TimedOut) else ResolutionOf(w, u)
  {
    hide Inv, TakeKey, ResolutionOf, IsPending;
    TakeReachesExactly(w, key, Rejected, u);
    TakeReachesExactly(w, key, TimedOut, u);
  }

  /** Whose questions a shutdown ends: those of the session, or all. */
  predicate Covers(session: Option<string>, key: Key) {
    session.None? || key.sessionId == session.value
  }

  /** A shutdown resolves exactly the pending registrations of its session, or all, and
      forgets exactly the resolved keys of its session, or all. */
  lemma ShutdownReachesExactly(w: World, session: Option<string>, t: Token)
    requires Inv(w)
    ensures var w' := Step(w, Shutdown(session));
            if IsPending(w, t) && Covers(session, w.log[t].key)
            then
              && !IsPending(w', t)
              && ResolutionOf(w', t) == Some(if session.None? then ExtensionShutdown else SessionShutdown)
            else IsPending(w', t) == IsPending(w, t) && ResolutionOf(w', t) == ResolutionOf(w, t)
    ensures var w' := Step(w, Shutdown(session));
            && (forall k :: k in w'.registry.resolved <==> k in w.registry.resolved && !Covers(session, k))
            && (forall k | k in w'.registry.resolved :: w'.registry.resolved[k] == w.registry.resolved[k])
  {
    hide CallsChecked, Guarded, Keyed, Phased, IsPending, ResolutionOf, ShutTokens, DoShutdown;
    ShutdownPending(w, session);
    ShutTokensExactly(w, session, t);
    ShutdownResolution(w, session, t);
    ShutdownForgets(w, session);
  }

  lemma ShutdownResolution(w: World, session: Option<string>, t: Token)
    ensures ResolutionOf(DoShutdown(w, session), t)
         == if t in ShutTokens(w, session) then Some(if session.None? then ExtensionShutdown else SessionShutdown)
            else ResolutionOf(w, t)
  {
    hide ShutTokens;
  }

  lemma ShutdownForgets(w: World, session: Option<string>)
    ensures var w' := DoShutdown(w, session);
            && (forall k :: k in w'.registry.resolved <==> k in w.registry.resolved && !Covers(session, k))
            && (forall k | k in w'.registry.resolved :: w'.registry.resolved[k] == w.registry.resolved[k])
  {
    hide ShutTokens;
  }

  lemma ShutTokensExactly(w: World, session: Option<string>, t: Token)
    requires Keyed(w)
    ensures t in ShutTokens(w, session) <==> IsPending(w, t) && Covers(session, w.log[t].key)
  {
    if IsPending(w, t) && Covers(session, w.log[t].key) {
      var k := w.log[t].key;
      assert k in w.registry.KeysOf(session) && w.registry.pending[k].token == t;
    }
    if t in ShutTokens(w, session) {
      var k :| k in w.registry.KeysOf(session) && w.registry.pending[k].token == t;
    }
  }

  /** Dropping a guard cancels its own registration if that is still pending, and only then;
      a registration whose event could not be emitted is taken out without a resolution. */
  lemma GuardEndsItsOwn(w: World, t: Token)
    requires Inv(w)
    ensures HasGuard(w, t, Armed) ==>
              && ResolutionOf(Step(w, DropGuard(t)), t)
                 == (if IsPending(w, t) then Some(TurnCancelled) else ResolutionOf(w, t))
              && !IsPending(Step(w, DropGuard(t)), t)
    ensures HasGuard(w, t, Registering) ==>
              && ResolutionOf(Step(w, EmitFailed(t)), t) == ResolutionOf(w, t)
              && !IsPending(Step(w, EmitFailed(t)), t)
              && (IsPending(w, t) ==> t in Step(w, EmitFailed(t)).abandoned)
  {
    hide CallsChecked, Guarded, Phased;
  }

  /** A key whose registration has just been resolved reports so until it is forgotten, and a
      key never registered is unknown. */
  lemma MissingExactly(w: World, key: Key)
    requires Inv(w) && key !in w.registry.pending
    ensures w.registry.Missing(key) == AlreadyResolved ==>
              exists t: Token :: t < |w.log| && w.log[t].key == key && ResolutionOf(w, t).Some?
    ensures w.registry.Missing(key) in {AlreadyResolved, NotFound}
    ensures forall k | k in w.registry.pending :: Step(w, Reject(k)).registry.Missing(k) == AlreadyResolved
  {
    hide CallsChecked, Guarded, Phased;
    if key in w.registry.resolved {
      var t := w.registry.resolved[key];
      assert t < |w.log| && w.log[t].key == key;
    }
  }

  // ---------------------------------------------------------------- whole runs

  lemma OwnedStays(w: World, a: Action, t: Token)
    requires Inv(w) && Owned(w, t)
    requires !(a.Register? && a.key == w.log[t].key)
    ensures Owned(Step(w, a), t) && Step(w, a).log[t] == w.log[t]
  {
    hide Phased, Guarded, CallsChecked, AnswersOk, AllRecommend, Chosen;
  }

  /** Until the key is registered anew, a checked call can resolve only what it checked. */
  lemma {:induction false} OwnedWithoutRegister(w: World, actions: seq<Action>, t: Token)
    requires Inv(w) && Owned(w, t)
    requires forall i | 0 <= i < |actions| :: !(actions[i].Register? && actions[i].key == w.log[t].key)
    ensures Owned(Run(w, actions), t)
    decreases |actions|
  {
    hide Inv, Step, Owned;
    if actions != [] {
      assert t < |w.log| by { InLog(w, t); }
      StepKeeps(w, actions[0]);
      OwnedStays(w, actions[0], t);
      InLog(Step(w, actions[0]), t);
      OwnedWithoutRegister(Step(w, actions[0]), actions[1..], t);
    }
  }

  lemma InLog(w: World, t: Token)
    requires Owned(w, t)
    ensures t < |w.log|
  {
  }

  ghost predicate AllFit(w: World) {
    forall t: Token | t < |w.log| && ResolutionOf(w, t).Some? :: Fits(w.log[t].questions, ResolutionOf(w, t).value)
  }

  /** No key is registered while a call that checked an earlier registration of it has still
      to resolve. */
  ghost predicate Undisturbed(w: World, actions: seq<Action>)
    decreases |actions|
  {
    actions != [] ==>
      && (actions[0].Register? ==> KeyIsIdle(w, actions[0].key))
      && Undisturbed(Step(w, actions[0]), actions[1..])
  }

  ghost predicate KeyIsIdle(w: World, key: Key) {
    forall c | c in w.calls :: w.calls[c].token < |w.log| ==> w.log[w.calls[c].token].key != key
  }

  ghost predicate CallsOwned(w: World) {
    forall c | c in w.calls :: Owned(w, w.calls[c].token)
  }

  lemma CallsStayOwned(w: World, a: Action)
    requires Inv(w) && CallsOwned(w) && (a.Register? ==> KeyIsIdle(w, a.key))
    ensures CallsOwned(Step(w, a))
  {
    hide Inv, Step, Owned;
    var w' := Step(w, a);
    forall c | c in w'.calls
      ensures Owned(w', w'.calls[c].token)
    {
      CallOrigin(w, a, c);
      if c in w.calls && w'.calls[c] == w.calls[c] {
        InLog(w, w.calls[c].token);
        OwnedStays(w, a, w.calls[c].token);
      }
    }
  }

  /** A call is as before, or it has just checked what is pending. */
  lemma CallOrigin(w: World, a: Action, c: nat)
    requires Inv(w) && c in Step(w, a).calls
    ensures (c in w.calls && Step(w, a).calls[c] == w.calls[c]) || Owned(Step(w, a), Step(w, a).calls[c].token)
  {
    hide Phased, Guarded, CallsChecked, AnswersOk, AllRecommend, Chosen;
  }

  /** A registration resolved in this step was pending, and the resolution is no answer, or
      it is that of a checked call to the same key. */
  lemma NewResolution(w: World, a: Action, t: Token)
    requires Inv(w) && ResolutionOf(w, t).None? && ResolutionOf(Step(w, a), t).Some?
    ensures IsPending(w, t)
    ensures var r := ResolutionOf(Step(w, a), t).value;
            || !(r.Answered? || r.AutoAnswered?)
            || (&& a.ResolveChecked? && a.call in w.calls && r == w.calls[a.call].resolution
                && w.calls[a.call].token < |w.log| && w.log[w.calls[a.call].token].key == w.log[t].key)
  {
    hide TakeKey, DoShutdown, DoCheck, CallsChecked, Phased, Guarded;
    match a
    case Reject(key) => TakeReachesExactly(w, key, Rejected, t);
    case Timeout(key) => TakeReachesExactly(w, key, TimedOut, t);
    case CheckAnswer(call, key, answers) => CheckSpares(w, call, key, AnswerVerdict(w, key, answers), t);
    case CheckAuto(call, key) => CheckSpares(w, call, key, AutoVerdict(w, key), t);
    case ResolveChecked(call) =>
      if call in w.calls && w.calls[call].token < |w.log| {
        var open := w.(calls := w.calls - {call});
        CalllessKeeps(w, call);
        TakeReachesExactly(open, w.log[w.calls[call].token].key, w.calls[call].resolution, t);
        SameOutside(w, open, t);
      }
    case Shutdown(session) => ShutdownReaches(w, session, t);
    case _ =>
  }

  lemma ShutdownReaches(w: World, session: Option<string>, t: Token)
    requires Inv(w) && ResolutionOf(w, t).None? && ResolutionOf(DoShutdown(w, session), t).Some?
    ensures IsPending(w, t)
    ensures ResolutionOf(DoShutdown(w, session), t).value in {SessionShutdown, ExtensionShutdown}
  {
    hide CallsChecked, Phased, Guarded;
    ShutdownPending(w, session);
  }

  lemma LogGrows(w: World, a: Action)
    ensures w.log <= Step(w, a).log
    ensures |Step(w, a).log| > |w.log| ==> a.Register? && |Step(w, a).log| == |w.log| + 1
  {
    hide AnswersOk, AllRecommend, Chosen;
  }

  lemma StepFits(w: World, a: Action)
    requires Inv(w) && CallsOwned(w) && AllFit(w)
    ensures AllFit(Step(w, a))
  {
    hide Inv, Step, IsPending, ResolutionOf, Fits;
    var w' := Step(w, a);
    LogGrows(w, a);
    forall t: Token | t < |w'.log| && ResolutionOf(w', t).Some?
      ensures Fits(w'.log[t].questions, ResolutionOf(w', t).value)
    {
      if ResolutionOf(w, t).Some? {
        ResolvedInLog(w, t);
        ResolutionStaysOneStep(w, a, t);
      } else {
        NewResolution(w, a, t);
        PendingInLog(w, t);
        NewFits(w, a, t);
      }
    }
  }

  lemma ResolvedInLog(w: World, t: Token)
    requires Inv(w) && ResolutionOf(w, t).Some?
    ensures t < |w.log|
  {
    hide CallsChecked, Guarded, Keyed;
  }

  lemma NewFits(w: World, a: Action, t: Token)
    requires Inv(w) && CallsOwned(w) && IsPending(w, t) && ResolutionOf(Step(w, a), t).Some?
    requires var r := ResolutionOf(Step(w, a), t).value;
             || !(r.Answered? || r.AutoAnswered?)
             || (&& a.ResolveChecked? && a.call in w.calls && r == w.calls[a.call].resolution
                 && w.calls[a.call].token < |w.log| && w.log[w.calls[a.call].token].key == w.log[t].key)
    ensures Fits(w.log[t].questions, ResolutionOf(Step(w, a), t).value)
  {
    hide Step, ResolutionOf, Phased, Guarded, AnswersOk, InputOk;
    var r := ResolutionOf(Step(w, a), t).value;
    if r.Answered? || r.AutoAnswered? {
      assert Owned(w, w.calls[a.call].token);
      assert w.calls[a.call].token == t;
    }
  }

  /** In every history in which no key is registered anew between check and resolution, every
      answer delivered, given or automatic, fits the question it is delivered to. */
  lemma {:induction false} UndisturbedAnswersFit(w: World, actions: seq<Action>)
    requires Inv(w) && CallsOwned(w) && AllFit(w) && Undisturbed(w, actions)
    ensures AllFit(Run(w, actions))
    decreases |actions|
  {
    hide Inv, Step, CallsOwned, AllFit, KeyIsIdle;
    if actions != [] {
      StepKeeps(w, actions[0]);
      CallsStayOwned(w, actions[0]);
      StepFits(w, actions[0]);
      UndisturbedAnswersFit(Step(w, actions[0]), actions[1..]);
    }
  }

  lemma AnswersFitFromStart(actions: seq<Action>)
    requires Undisturbed(INIT, actions)
    ensures AllFit(Run(INIT, actions))
  {
    InitHolds();
    UndisturbedAnswersFit(INIT, actions);
  }

  /** Between check and resolution the key can be registered anew: the answers then go to
      a question they were never checked against. */
  lemma {:induction false} ReRegistrationMisroutes(k: Key, q: seq<Question>, q': seq<Question>, answers: Answers)
    requires AnswersOk(q, answers) && !AnswersOk(q', answers)
    ensures var w := Run(INIT, [Register(k, q), CheckAnswer(0, k, answers), Reject(k),
                                Register(k, q'), ResolveChecked(0)]);
            && w.log == [Registration(k, q), Registration(k, q')]
            && ResolutionOf(w, 1) == Some(Answered(answers))
            && !AnswersOk(w.log[1].questions, answers)
  {
    hide AnswersOk, Run;
    var w3 := AfterRejection(k, q, answers);
    var w4 := Step(w3, Register(k, q'));
    assert w4.log == [Registration(k, q), Registration(k, q')];
    assert w4.registry.pending == map[k := PendingEntry(q', 1)];
    var w5 := Step(w4, ResolveChecked(0));
    assert ResolutionOf(w5, 1) == Some(Answered(answers));
    var actions := [Register(k, q), CheckAnswer(0, k, answers), Reject(k), Register(k, q'), ResolveChecked(0)];
    RunsOn(INIT, actions[..3], actions[3..]);
    assert actions[..3] == [Register(k, q), CheckAnswer(0, k, answers), Reject(k)];
    assert actions[3..] == [Register(k, q'), ResolveChecked(0)] && actions[..3] + actions[3..] == actions;
    Unroll(w3, actions[3..]);
    Unroll(w4, actions[3..][1..]);
    RunNothing(w5);
    assert actions[3..][1..][1..] == [];
  }

  lemma {:induction false} AfterRejection(k: Key, q: seq<Question>, answers: Answers) returns (w: World)
    requires AnswersOk(q, answers)
    ensures w == Run(INIT, [Register(k, q), CheckAnswer(0, k, answers), Reject(k)])
    ensures w.log == [Registration(k, q)] && w.registry.pending == map[]
    ensures w.calls == map[0 := Checked(0, Answered(answers))]
    ensures w.taken == map[0 := Rejected] && w.delivered == map[]
  {
    hide AnswersOk, Run;
    var w1 := Step(INIT, Register(k, q));
    var w2 := Step(w1, CheckAnswer(0, k, answers));
    w := Step(w2, Reject(k));
    var actions := [Register(k, q), CheckAnswer(0, k, answers), Reject(k)];
    Unroll(INIT, actions);
    Unroll(w1, actions[1..]);
    Unroll(w2, actions[1..][1..]);
    RunNothing(w);
    assert actions[1..][1..][1..] == [];
  }

  lemma RunNothing(w: World)
    ensures Run(w, []) == w
  {
  }

  lemma {:induction false} RunsOn(w: World, a: seq<Action>, b: seq<Action>)
    ensures Run(w, a + b) == Run(Run(w, a), b)
    decreases |a|
  {
    hide Step;
    if a == [] {
      assert a + b == b;
    } else {
      assert (a + b)[0] == a[0] && (a + b)[1..] == a[1..] + b;
      RunsOn(Step(w, a[0]), a[1..], b);
    }
  }

  lemma Unroll(w: World, actions: seq<Action>)
    requires actions != []
    ensures Run(w, actions) == Run(Step(w, actions[0]), actions[1..])
  {
  }

  // ---------------------------------------------------------------- timeouts

  /** Of all registrations of a key, the pending one is the newest. */
  ghost predicate Newest(w: World) {
    forall k, t: Token | k in w.registry.pending && t < |w.log| && w.log[t].key == k ::
      t <= w.registry.pending[k].token
  }

  lemma NewestStays(w: World, a: Action)
    requires Inv(w) && Newest(w)
    ensures Newest(Step(w, a))
  {
    hide Phased, Guarded, CallsChecked, AnswersOk, AllRecommend, Chosen;
  }

  lemma {:induction false} EveryRunNewest(w: World, actions: seq<Action>)
    requires Inv(w) && Newest(w)
    ensures Newest(Run(w, actions))
    decreases |actions|
  {
    hide Inv, Step, Newest;
    if actions != [] {
      StepKeeps(w, actions[0]);
      NewestStays(w, actions[0]);
      EveryRunNewest(Step(w, actions[0]), actions[1..]);
    }
  }

  /** A handler's own timeout leaves its registration resolved.  It changes another
      registration exactly when that one is pending under the same key; then it is a newer
      one, and the handler's own had been resolved before. */
  lemma TimeoutReachesExactly(w: World, t: Token)
    requires Inv(w) && Newest(w) && HasGuard(w, t, Armed)
    ensures var w' := Step(w, Timeout(w.log[t].key));
            && ResolutionOf(w', t) == (if IsPending(w, t) then Some(TimedOut) else ResolutionOf(w, t))
            && ResolutionOf(w', t).Some?
            && forall u: Token | u != t ::
                 && (ResolutionOf(w', u) != ResolutionOf(w, u) <==> IsPending(w, u) && w.log[u].key == w.log[t].key)
                 && (ResolutionOf(w', u) != ResolutionOf(w, u) ==> u > t && ResolutionOf(w, t).Some?)
  {
    hide Phased, Guarded, CallsChecked, TakeKey, ResolutionOf;
    var key := w.log[t].key;
    var w' := Step(w, Timeout(key));
    forall u: Token
      ensures ResolutionOf(w', u) == if IsPending(w, u) && w.log[u].key == key then Some(TimedOut) else ResolutionOf(w, u)
    {
      TakeReachesExactly(w, key, TimedOut, u);
    }
    PendingIsOpen(w);
    if !IsPending(w, t) {
      WaitingIsServed(w, t);
    }
  }

  /** Such a history: the first registration is rejected but its handler not yet told, the
      key is registered anew, and the first handler's timeout ends the second question. */
  lemma TimeoutHitsNewer(k: Key, q: seq<Question>, q': seq<Question>)
    ensures var w := Run(INIT, [Register(k, q), EmitOk(0), Reject(k), Register(k, q')]);
            && HasGuard(w, 0, Armed) && IsPending(w, 1)
            && ResolutionOf(Step(w, Timeout(k)), 1) == Some(TimedOut)
  {
    var w1 := Step(INIT, Register(k, q));
    var w2 := Step(w1, EmitOk(0));
    var w3 := Step(w2, Reject(k));
    var w4 := Step(w3, Register(k, q'));
    assert w4.log == [Registration(k, q), Registration(k, q')];
    assert w4.registry.pending == map[k := PendingEntry(q', 1)];
    var actions := [Register(k, q), EmitOk(0), Reject(k), Register(k, q')];
    Unroll(INIT, actions);
    Unroll(w1, actions[1..]);
    Unroll(w2, actions[2..]);
    Unroll(w3, actions[3..]);
    assert actions[1..][1..] == actions[2..] && actions[2..][1..] == actions[3..] && actions[3..][1..] == [];
  }
}
