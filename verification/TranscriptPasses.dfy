/** The normalisation as the source runs it on owned entries: loops that drain one vector
    into another.
 */
module TranscriptPasses {
  import opened Transcript
  import opened Wrappers

  // ---------------------------------------------------------------- owned entries

  method NormalizeToolCallEntries<T>(messages: seq<Entry<T>>, join: (T, T) -> T) returns (merged: seq<Entry<T>>)
    ensures merged == Merge(messages, join)
  {
    merged := [];
    for i := 0 to |messages|
      invariant merged == [] <==> i == 0
      invariant merged != [] ==> MergeOutlook(merged, messages[i..], join) == Merge(messages, join)
    {
      var entry := messages[i];
      assert messages[i..] == [entry] + messages[i + 1..];
      if merged != [] { MergeOutlookStep(merged, entry, messages[i + 1..], join); }
      if merged != [] && Mergeable(merged[|merged| - 1], entry) {
        var last := Absorb(merged[|merged| - 1], entry, join);
        merged := merged[..|merged| - 1] + [last];
      } else {
        merged := merged + [entry];
        assert i == 0 ==> messages == [entry] + messages[1..];
      }
    }
    assert messages[|messages|..] == [];
    if merged != [] {
      assert merged[..|merged| - 1] + [merged[|merged| - 1]] == merged;
    }
  }

  /** What the loop will return, given what it has merged and what is left. */
  ghost function MergeOutlook<T>(merged: seq<Entry<T>>, rest: seq<Entry<T>>, join: (T, T) -> T): seq<Entry<T>>
    requires merged != []
  {
    merged[..|merged| - 1] + Merge([merged[|merged| - 1]] + rest, join)
  }

  lemma MergeOutlookStep<T>(merged: seq<Entry<T>>, entry: Entry<T>, rest: seq<Entry<T>>, join: (T, T) -> T)
    requires merged != []
    ensures var last := merged[|merged| - 1];
            MergeOutlook(merged, [entry] + rest, join)
            == if Mergeable(last, entry)
               then MergeOutlook(merged[..|merged| - 1] + [Absorb(last, entry, join)], rest, join)
               else MergeOutlook(merged + [entry], rest, join)
  {
    var last := merged[|merged| - 1];
    var es := [last] + ([entry] + rest);
    assert es[1] == entry && es[1..] == [entry] + rest && es[2..] == rest;
    if Mergeable(last, entry) {
      var ab := Absorb(last, entry, join);
      assert (merged[..|merged| - 1] + [ab])[..|merged| - 1] == merged[..|merged| - 1];
    } else {
      assert (merged + [entry])[..|merged|] == merged;
      assert merged == merged[..|merged| - 1] + [last];
    }
  }

  /** The unsettled round: where its call stands in the output, all its call ids, and
      those answered so far. */
  datatype Pending = Pending(start: nat, callIds: set<string>, answered: set<string>)

  method TruncateIncompleteToolEntries<T>(messages: seq<Entry<T>>) returns (out: seq<Entry<T>>)
    ensures out == Truncate(messages)
  {
    hide Settle, Truncate;
    out := [];
    var pending: Option<Pending> := None;
    var buffered: seq<Entry<T>> := [];
    assert [] + Truncate(messages) == Truncate(messages);
    for i := 0 to |messages|
      invariant InOrder(out, pending, buffered)
      invariant Outlook(out, pending, buffered, messages[i..]) == Truncate(messages)
    {
      var entry := messages[i];
      assert messages[i..][0] == entry && messages[i..][1..] == messages[i + 1..];
      OutlookStep(out, pending, buffered, messages[i..]);
      if entry.IsTool() {
        var results := entry.Results();
        var matchesPending := pending.Some? && results != {} &&
                              results <= pending.value.callIds && results !! pending.value.answered;
        if !matchesPending {
          var cut := if pending.Some? then pending.value.start else |out|;
          out := out[..cut];
          return;
        }
        pending := Some(pending.value.(answered := pending.value.answered + results));
        out := out + [entry];
        if pending.value.callIds <= pending.value.answered {
          pending := None;
          out := out + buffered;
          buffered := [];
        }
      } else if pending.Some? {
        buffered := buffered + [entry];
      } else {
        if entry.IsAssistant() {
          var callIds := entry.Asked();
          if callIds != {} {
            pending := Some(Pending(|out|, callIds, {}));
          }
        }
        out := out + [entry];
      }
    }
    OutlookEnd(out, pending, buffered, messages[|messages|..]);
    if pending.Some? {
      out := out[..pending.value.start];
    }
  }

  ghost predicate InOrder<T>(out: seq<Entry<T>>, pending: Option<Pending>, buffered: seq<Entry<T>>) {
    match pending
    case None => buffered == []
    case Some(p) => p.start < |out|
  }

  /** What the loop will return, given its three variables and the entries left. */
  ghost function Outlook<T>(out: seq<Entry<T>>, pending: Option<Pending>, buffered: seq<Entry<T>>,
                            rest: seq<Entry<T>>): seq<Entry<T>>
    requires InOrder(out, pending, buffered)
  {
    match pending
    case None => out + Truncate(rest)
    case Some(p) =>
      match Settle(p.callIds, p.answered, rest)
      case Unsettled => out[..p.start]
      case Settled(t, b, more) => out + (t + (buffered + (b + Truncate(more))))
  }

  lemma OutlookEnd<T>(out: seq<Entry<T>>, pending: Option<Pending>, buffered: seq<Entry<T>>, rest: seq<Entry<T>>)
    requires InOrder(out, pending, buffered) && rest == []
    ensures Outlook(out, pending, buffered, rest) == if pending.Some? then out[..pending.value.start] else out
  {
  }

  lemma OutlookStep<T>(out: seq<Entry<T>>, pending: Option<Pending>, buffered: seq<Entry<T>>, rest: seq<Entry<T>>)
    requires InOrder(out, pending, buffered) && rest != []
    ensures var e, more := rest[0], rest[1..];
            Outlook(out, pending, buffered, rest) ==
              match pending
              case None =>
                if e.IsTool() then out
                else if e.Calls() then Outlook(out + [e], Some(Pending(|out|, e.Asked(), {})), [], more)
                else Outlook(out + [e], None, [], more)
              case Some(p) =>
                if !e.IsTool() then Outlook(out, pending, buffered + [e], more)
                else if !Answers(e, p.callIds, p.answered) then out[..p.start]
                else
                  var now := p.answered + e.Results();
                  if p.callIds <= now then Outlook(out + [e] + buffered, None, [], more)
                  else Outlook(out + [e], Some(p.(answered := now)), buffered, more)
  {
    match pending
    case None => OutlookIdle(out, rest);
    case Some(p) => OutlookOpen(out, p, buffered, rest);
  }

  lemma OutlookIdle<T>(out: seq<Entry<T>>, rest: seq<Entry<T>>)
    requires rest != []
    ensures var e, more := rest[0], rest[1..];
            out + Truncate(rest) ==
              if e.IsTool() then out
              else if e.Calls() then Outlook(out + [e], Some(Pending(|out|, e.Asked(), {})), [], more)
              else out + [e] + Truncate(more)
  {
    hide Settle, Truncate;
    var e := rest[0];
    TruncateUnfolds(rest);
    if e.IsTool() {
      assert out + [] == out;
    } else if e.Calls() {
      assert (out + [e])[..|out|] == out;
      var round := Opened(rest);
      if round.Settled? {
        var tail := round.bystanders + Truncate(round.rest);
        assert [] + tail == tail;
        Assoc(out, [e], round.tools + tail);
      }
    } else {
      Assoc(out, [e], Truncate(rest[1..]));
    }
  }

  lemma OutlookOpen<T>(out: seq<Entry<T>>, p: Pending, buffered: seq<Entry<T>>, rest: seq<Entry<T>>)
    requires p.start < |out| && rest != []
    ensures var e, more := rest[0], rest[1..];
            Outlook(out, Some(p), buffered, rest) ==
              if !e.IsTool() then Outlook(out, Some(p), buffered + [e], more)
              else if !Answers(e, p.callIds, p.answered) then out[..p.start]
              else
                var now := p.answered + e.Results();
                if p.callIds <= now then out + [e] + buffered + Truncate(more)
                else Outlook(out + [e], Some(p.(answered := now)), buffered, more)
  {
    hide Truncate;
    var e, more := rest[0], rest[1..];
    if !e.IsTool() {
      var r := Settle(p.callIds, p.answered, more);
      if r.Settled? {
        assert buffered + (([e] + r.bystanders) + Truncate(r.rest)) == (buffered + [e]) + (r.bystanders + Truncate(r.rest));
      }
    } else if Answers(e, p.callIds, p.answered) {
      var now := p.answered + e.Results();
      if p.callIds <= now {
        assert out + ([e] + (buffered + ([] + Truncate(more)))) == out + [e] + buffered + Truncate(more);
      } else {
        var r := Settle(p.callIds, now, more);
        assert (out + [e])[..p.start] == out[..p.start];
        if r.Settled? {
          var tail := buffered + (r.bystanders + Truncate(r.rest));
          assert out + (([e] + r.tools) + tail) == (out + [e]) + (r.tools + tail);
        }
      }
    }
  }

  /** `provider_visible_entries` over owned entries. */
  method ProviderVisibleEntries<T>(messages: seq<Entry<T>>, join: (T, T) -> T) returns (visible: seq<Entry<T>>)
    ensures visible == Normalise(messages, join)
  {
    var merged := NormalizeToolCallEntries(Filter(messages), join);
    visible := TruncateIncompleteToolEntries(merged);
  }
}
