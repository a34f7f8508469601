/** The pending registry: two maps behind one lock.  Each lock section is a method of the
    class and a function on `Registry` values; the functions are what the protocol in
    module `AskUserProtocol` interleaves.
 */
module AskUserRegistry {
  import opened AskUserModel
  import opened Wrappers

  datatype Key = Key(sessionId: string, callId: string)

  /** The identity of one registration: the address of its `Arc<()>`. */
  type Token = nat

  datatype PendingEntry = PendingEntry(questions: seq<Question>, token: Token)

  datatype ResolveError = NotFound | AlreadyResolved | InvalidAnswers | NoRecommended

  datatype Registry = Registry(pending: map<Key, PendingEntry>, resolved: map<Key, Token>) {

    /** The failure reported for a key that is not pending. */
    function Missing(key: Key): ResolveError {
      if key in resolved then AlreadyResolved else NotFound
    }

    predicate Holds(key: Key, token: Token) {
      key in pending && pending[key].token == token
    }

    function Register(key: Key, entry: PendingEntry): Registry
      requires key !in pending
    {
      Registry(pending[key := entry], resolved - {key})
    }

    /** `resolve`: the entry leaves `pending`, its token is remembered in `resolved`. */
    function Resolve(key: Key): Registry
      requires key in pending
    {
      Registry(pending - {key}, resolved[key := pending[key].token])
    }

    /** `resolve_registered`: the same, if the registration is still the given one. */
    function ResolveRegistered(key: Key, token: Token): Registry {
      if Holds(key, token) then Resolve(key) else this
    }

    /** `abandon_registered` */
    function Abandon(key: Key, token: Token): Registry {
      if Holds(key, token) then Registry(pending - {key}, resolved) else this
    }

    /** `forget_resolved` */
    function Forget(key: Key, token: Token): Registry {
      if key in resolved && resolved[key] == token then Registry(pending, resolved - {key}) else this
    }

    /** The pending keys of a session, or of all sessions. */
    function KeysOf(session: Option<string>): set<Key> {
      set k | k in pending && (session.None? || k.sessionId == session.value)
    }

    /** `shutdown_session`, `shutdown_extension`: both maps forget the keys. */
    function Shutdown(session: Option<string>): Registry {
      Registry(pending - KeysOf(session),
               map k | k in resolved && !(session.None? || k.sessionId == session.value) :: resolved[k])
    }
  }

  class PendingRegistry {
    var pending: map<Key, PendingEntry>
    var resolved: map<Key, Token>

    function Value(): Registry
      reads this
    {
      Registry(pending, resolved)
    }

    constructor ()
      ensures Value() == Registry(map[], map[])
    {
      pending := map[];
      resolved := map[];
    }

    method Register(key: Key, questions: seq<Question>, token: Token) returns (ok: bool)
      modifies this
      ensures ok <==> key !in old(pending)
      ensures Value() == if ok then old(Value()).Register(key, PendingEntry(questions, token)) else old(Value())
    {
      if key in pending {
        return false;
      }
      resolved := resolved - {key};
      pending := pending[key := PendingEntry(questions, token)];
      ok := true;
    }

    method Resolve(key: Key) returns (r: Result<PendingEntry, ResolveError>)
      modifies this
      ensures r.Ok? <==> key in old(pending)
      ensures r.Ok? ==> r.value == old(pending)[key] && Value() == old(Value()).Resolve(key)
      ensures r.Err? ==> Value() == old(Value()) && r.error == old(Value()).Missing(key)
    {
      if key !in pending {
        return Err(if key in resolved then AlreadyResolved else NotFound);
      }
      var entry := pending[key];
      pending := pending - {key};
      resolved := resolved[key := entry.token];
      r := Ok(entry);
    }

    method ResolveRegistered(key: Key, token: Token) returns (entry: Option<PendingEntry>)
      modifies this
      ensures Value() == old(Value()).ResolveRegistered(key, token)
      ensures entry == if old(Value()).Holds(key, token) then Some(old(pending)[key]) else None
    {
      if key !in pending || pending[key].token != token {
        return None;
      }
      entry := Some(pending[key]);
      resolved := resolved[key := pending[key].token];
      pending := pending - {key};
    }

    method AbandonRegistered(key: Key, token: Token)
      modifies this
      ensures Value() == old(Value()).Abandon(key, token)
    {
      if key !in pending {
        return;
      }
      if pending[key].token == token {
        pending := pending - {key};
      }
    }

    method ForgetResolved(key: Key, token: Token)
      modifies this
      ensures Value() == old(Value()).Forget(key, token)
    {
      if key in resolved && resolved[key] == token {
        resolved := resolved - {key};
      }
    }

    method Shutdown(session: Option<string>) returns (entries: map<Key, PendingEntry>)
      modifies this
      ensures Value() == old(Value()).Shutdown(session)
      ensures entries == map k | k in old(Value()).KeysOf(session) :: old(pending)[k]
    {
      resolved := map k | k in resolved && !(session.None? || k.sessionId == session.value) :: resolved[k];
      var keys := set k | k in pending && (session.None? || k.sessionId == session.value);
      entries := map k | k in keys :: pending[k];
      pending := pending - keys;
    }

    /** The first lock section of `answer`. */
    method Check(key: Key, answers: Answers) returns (r: Result<(), ResolveError>)
      ensures r == if key !in pending then Err(Value().Missing(key))
                   else if AnswersOk(pending[key].questions, answers) then Ok(())
                   else Err(InvalidAnswers)
    {
      if key !in pending {
        return Err(if key in resolved then AlreadyResolved else NotFound);
      }
      if !AnswersOk(pending[key].questions, answers) {
        return Err(InvalidAnswers);
      }
      r := Ok(());
    }

    /** `answer`, when nobody comes between its two lock sections. */
    method Answer(key: Key, answers: Answers) returns (r: Result<PendingEntry, ResolveError>)
      modifies this
      ensures r.Ok? <==> key in old(pending) && AnswersOk(old(pending)[key].questions, answers)
      ensures r.Ok? ==> r.value == old(pending)[key] && Value() == old(Value()).Resolve(key)
      ensures r.Err? ==> Value() == old(Value())
      ensures r == Err(InvalidAnswers) <==> key in old(pending) && !AnswersOk(old(pending)[key].questions, answers)
    {
      var checked := Check(key, answers);
      if checked.Err? {
        return Err(checked.error);
      }
      r := Resolve(key);
    }

    /** The first lock section of `auto_select_recommended`, and the choice made from what
        it read. */
    method CheckRecommended(key: Key) returns (r: Result<Answers, ResolveError>)
      ensures r.Ok? <==> key in pending && AllRecommend(pending[key].questions)
      ensures r.Ok? ==> r.value == Chosen(pending[key].questions)
      ensures r.Err? ==> r.error == if key in pending then NoRecommended else Value().Missing(key)
    {
      if key !in pending {
        return Err(if key in resolved then AlreadyResolved else NotFound);
      }
      var chosen := AutoRecommendedAnswers(pending[key].questions);
      if chosen.None? {
        return Err(NoRecommended);
      }
      r := Ok(chosen.value);
    }

    /** `auto_select_recommended`, when nobody comes between its two lock sections. */
    method AutoSelectRecommended(key: Key) returns (r: Result<PendingEntry, ResolveError>, answers: Answers)
      modifies this
      ensures r.Ok? <==> key in old(pending) && AllRecommend(old(pending)[key].questions)
      ensures r.Ok? ==>
                && r.value == old(pending)[key] && Value() == old(Value()).Resolve(key)
                && answers == Chosen(r.value.questions)
                && (InputOk(r.value.questions) ==> AnswersOk(r.value.questions, answers))
      ensures r.Err? ==> Value() == old(Value())
    {
      var checked := CheckRecommended(key);
      if checked.Err? {
        return Err(checked.error), map[];
      }
      answers := checked.value;
      if InputOk(pending[key].questions) { AutoAnswersPassValidation(pending[key].questions); }
      r := Resolve(key);
    }
  }
}
