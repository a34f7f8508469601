/** The `Arc` path: entries hold a reference to a message that other snapshots may hold
    as well.  Merging goes through `Arc::make_mut`: a message somebody else can reach is
    copied first, a message nobody else can reach is changed in place.
 */
module SharedTranscript {
  import opened Transcript
  import opened TranscriptTheorems
  import opened TranscriptTags
  import opened TranscriptPasses
  import opened Wrappers

  class ArcMessage {
    var message: Message

    constructor (message: Message)
      ensures this.message == message
    {
      this.message := message;
    }
  }

  datatype Shared<T> = Shared(arc: ArcMessage, tag: T)

  ghost function Arcs<T>(s: seq<Shared<T>>): set<ArcMessage> {
    set x | x in s :: x.arc
  }

  /** The entries that a sequence of shared entries stands for. */
  ghost function View<T>(s: seq<Shared<T>>): (v: seq<Entry<T>>)
    reads Arcs(s)
    ensures |v| == |s|
    ensures forall i | 0 <= i < |s| :: v[i] == Entry(s[i].arc.message, s[i].tag)
  {
    if s == [] then []
    else
      assert Arcs(s[1..]) <= Arcs(s);
      assert s[0].arc in Arcs(s);
      [Entry(s[0].arc.message, s[0].tag)] + View(s[1..])
  }

  /** Whether `arc` is held anywhere else: in `snapshot`, among the entries merged before
      it, or among those still to come. */
  predicate HeldElsewhere<T>(arc: ArcMessage, snapshot: set<ArcMessage>, before: seq<Shared<T>>, after: seq<Shared<T>>) {
    || arc in snapshot
    || (exists i | 0 <= i < |before| :: before[i].arc == arc)
    || (exists i | 0 <= i < |after| :: after[i].arc == arc)
  }

  method FilterShared<T>(messages: seq<Shared<T>>) returns (visible: seq<Shared<T>>)
    ensures View(visible) == Filter(View(messages))
    ensures Arcs(visible) <= Arcs(messages)
    ensures AllVisible(View(messages)) ==> visible == messages
  {
    visible := [];
    var i := |messages|;
    assert View(messages[i..]) == [];
    while i > 0
      invariant 0 <= i <= |messages|
      invariant View(visible) == Filter(View(messages)[i..])
      invariant Arcs(visible) <= Arcs(messages)
      invariant AllVisible(View(messages)) ==> visible == messages[i..]
    {
      i := i - 1;
      ghost var v := View(messages)[i..];
      assert v[0] == Entry(messages[i].arc.message, messages[i].tag);
      assert v[1..] == View(messages)[i + 1..];
      if Visible(messages[i].arc.message) {
        visible := [messages[i]] + visible;
      } else {
        assert !Visible(View(messages)[i].message);
      }
    }
    assert View(messages)[0..] == View(messages);
  }

  /** `Arc::make_mut(last).append(entry)` */
  method AbsorbShared<T>(last: Shared<T>, entry: Shared<T>, held: bool, join: (T, T) -> T) returns (r: Shared<T>)
    modifies if held then {} else {last.arc}
    ensures Entry(r.arc.message, r.tag)
         == old(Absorb(Entry(last.arc.message, last.tag), Entry(entry.arc.message, entry.tag), join))
    ensures if held then fresh(r.arc) else r.arc == last.arc
  {
    var absorbed := Absorb(Entry(last.arc.message, last.tag), Entry(entry.arc.message, entry.tag), join);
    if held {
      var copy := new ArcMessage(absorbed.message);
      r := Shared(copy, absorbed.tag);
    } else {
      last.arc.message := absorbed.message;
      r := Shared(last.arc, absorbed.tag);
    }
  }

  /** Both entries are assistant messages and the second calls tools. */
  predicate MergeableArcs(a: ArcMessage, b: ArcMessage)
    reads a, b
  {
    Mergeable(Entry(a.message, ()), Entry(b.message, ()))
  }

  lemma {:induction false} MergeableViews<T>(a: Shared<T>, b: Shared<T>)
    ensures MergeableArcs(a.arc, b.arc)
       <==> Mergeable(Entry(a.arc.message, a.tag), Entry(b.arc.message, b.tag))
  {
  }

  /** Absorbs the first entry of `rest` into the last of `merged`; nothing else that
      `merged`, `rest` or `snapshot` holds is affected. */
  method AbsorbIntoLast<T>(merged: seq<Shared<T>>, rest: seq<Shared<T>>, snapshot: set<ArcMessage>, join: (T, T) -> T)
    returns (r: seq<Shared<T>>)
    requires merged != [] && rest != []
    modifies {merged[|merged| - 1].arc} - snapshot
    ensures View(rest) == old(View(rest))
    ensures View(r) == old(View(merged))[..|merged| - 1]
                     + [Absorb(old(View(merged))[|merged| - 1], old(View(rest))[0], join)]
    ensures |r| == |merged| && r[..|merged| - 1] == merged[..|merged| - 1]
    ensures r[|merged| - 1].arc == merged[|merged| - 1].arc || fresh(r[|merged| - 1].arc)
  {
    hide View, Absorb;
    var n := |merged| - 1;
    var held := HeldElsewhere(merged[n].arc, snapshot, merged[..n], rest);
    var last := AbsorbShared(merged[n], rest[0], held, join);
    r := merged[..n] + [last];
    forall k | 0 <= k < n
      ensures r[k].arc.message == old(merged[k].arc.message)
    {
      assert merged[..n][k] == merged[k];
    }
  }

  method MergeShared<T>(messages: seq<Shared<T>>, snapshot: set<ArcMessage>, join: (T, T) -> T)
    returns (merged: seq<Shared<T>>)
    modifies Arcs(messages) - snapshot
    ensures View(merged) == Merge(old(View(messages)), join)
    ensures forall x | x in merged :: x.arc in Arcs(messages) || fresh(x.arc)
    ensures |merged| == |messages| ==> merged == messages
  {
    hide Merge, View, MergeOutlook, Absorb, Mergeable, MergeableArcs, HeldElsewhere;
    ghost var v := View(messages);
    merged := [];
    for i := 0 to |messages|
      invariant View(messages[i..]) == v[i..]
      invariant forall k | 0 <= k < |merged| :: merged[k].arc in Arcs(messages) || fresh(merged[k].arc)
      invariant merged == [] <==> i == 0
      invariant merged != [] ==> MergeOutlook(View(merged), v[i..], join) == Merge(v, join)
      invariant |merged| <= i && (|merged| == i ==> merged == messages[..i])
    {
      var rest := messages[i..];
      ghost var w := View(merged);
      assert v[i..] == [v[i]] + v[i + 1..] && v[i..][0] == v[i];
      if merged != [] { MergeOutlookStep(w, v[i], v[i + 1..], join); }
      if merged != [] && MergeableArcs(merged[|merged| - 1].arc, rest[0].arc) {
        assert Mergeable(w[|w| - 1], v[i]) by { MergeableViews(merged[|merged| - 1], rest[0]); }
        merged := AbsorbIntoLast(merged, rest, snapshot, join);
        assert View(merged) == w[..|w| - 1] + [Absorb(w[|w| - 1], v[i], join)];
      } else {
        if merged != [] { MergeableViews(merged[|merged| - 1], rest[0]); }
        merged := merged + [rest[0]];
        assert View(merged) == w + [v[i]];
        assert messages[..i + 1] == messages[..i] + [rest[0]];
        if i == 0 {
          MergeStart(v, join);
          assert w + [v[0]] == [v[0]];
        }
      }
      assert rest[1..] == messages[i + 1..];
      assert View(rest[1..]) == v[i + 1..];
    }
    assert v[|messages|..] == [];
    MergeSingle(View(merged), join);
    assert messages[..|messages|] == messages;
    assert |messages| == 0 ==> v == [];
  }

  lemma {:induction false} MergeStart<T>(v: seq<Entry<T>>, join: (T, T) -> T)
    requires v != []
    ensures MergeOutlook([v[0]], v[1..], join) == Merge(v, join)
  {
    assert [v[0]] + v[1..] == v;
    assert [] + Merge(v, join) == Merge(v, join);
  }

  lemma {:induction false} MergeSingle<T>(w: seq<Entry<T>>, join: (T, T) -> T)
    ensures w != [] ==> MergeOutlook(w, [], join) == w
    ensures Merge<T>([], join) == []
  {
    if w != [] {
      assert [w[|w| - 1]] + [] == [w[|w| - 1]];
      assert w[..|w| - 1] + [w[|w| - 1]] == w;
    }
  }

  function TagOf<T>(s: Shared<T>): T { s.tag }

  method TruncateShared<T>(merged: seq<Shared<T>>) returns (visible: seq<Shared<T>>)
    ensures View(visible) == Truncate(View(merged))
    ensures forall x | x in visible :: x in merged
  {
    hide Truncate, View;
    var entries := Materialise(merged);
    var truncated := TruncateIncompleteToolEntries(entries);
    visible := [];
    for i := 0 to |truncated|
      invariant |visible| == i
      invariant forall k | 0 <= k < i :: visible[k] == truncated[k].tag
    {
      visible := visible + [truncated[i].tag];
    }
    forall k | 0 <= k < |truncated|
      ensures truncated[k].tag in merged && truncated[k].message == truncated[k].tag.arc.message
    {
      TruncateMembers(entries, truncated[k]);
    }
    TruncateCommutes(entries, TagOf<T>);
    RelabelIsView(merged, entries);
    RelabelIsView(visible, truncated);
  }

  lemma {:induction false} RelabelIsView<T>(s: seq<Shared<T>>, entries: seq<Entry<Shared<T>>>)
    requires |entries| == |s| && forall i | 0 <= i < |s| :: entries[i] == Entry(s[i].arc.message, s[i])
    ensures Relabel(entries, TagOf<T>) == View(s)
  {
    var r, v := Relabel(entries, TagOf<T>), View(s);
    forall i | 0 <= i < |s|
      ensures r[i] == v[i]
    {
      var e := Entry(s[i].arc.message, s[i]);
      assert entries[i] == e;
      assert r[i] == Entry(e.message, TagOf(e.tag));
    }
  }

  method Materialise<T>(s: seq<Shared<T>>) returns (entries: seq<Entry<Shared<T>>>)
    ensures |entries| == |s|
    ensures forall i | 0 <= i < |s| :: entries[i] == Entry(s[i].arc.message, s[i])
  {
    entries := [];
    for i := 0 to |s|
      invariant |entries| == i
      invariant forall k | 0 <= k < i :: entries[k] == Entry(s[k].arc.message, s[k])
    {
      entries := entries + [Entry(s[i].arc.message, s[i])];
    }
  }

  /** `provider_visible_entries` over shared entries: the messages of the owned path, with
      nothing that `snapshot` holds changed, and no message allocated where no merge was
      due. */
  method ProviderVisibleShared<T>(messages: seq<Shared<T>>, snapshot: set<ArcMessage>, join: (T, T) -> T)
    returns (visible: seq<Shared<T>>)
    modifies Arcs(messages) - snapshot
    ensures View(visible) == Normalise(old(View(messages)), join)
    ensures forall c: ArcMessage | c in snapshot :: c.message == old(c.message)
    ensures forall x | x in visible :: x.arc in Arcs(messages) || fresh(x.arc)
    ensures MergedForm(Filter(old(View(messages)))) ==> forall x | x in visible :: x.arc in Arcs(messages)
  {
    hide Merge, Filter, Truncate, MergedForm;
    ghost var v := View(messages);
    var kept := FilterShared(messages);
    assert View(kept) == Filter(v);
    var merged := MergeShared(kept, snapshot, join);
    assert View(merged) == Merge(Filter(v), join);
    visible := TruncateShared(merged);
    assert View(merged) == Merge(Filter(v), join);
    assert View(visible) == Truncate(Merge(Filter(v), join));
    MergeFixesExactlyMerged(Filter(v), join);
    forall x | x in visible
      ensures x.arc in Arcs(messages) || fresh(x.arc)
    {
      assert x in merged;
    }
  }

  /** `provider_transcript_shared_messages`: the same, and then without system messages. */
  method ProviderTranscriptShared<T>(messages: seq<Shared<T>>, snapshot: set<ArcMessage>, join: (T, T) -> T)
    returns (transcript: seq<Shared<T>>)
    modifies Arcs(messages) - snapshot
    ensures View(transcript) == ProviderTranscript(old(View(messages)), join)
    ensures forall c: ArcMessage | c in snapshot :: c.message == old(c.message)
  {
    hide Normalise, WithoutSystem, View;
    var visible := ProviderVisibleShared(messages, snapshot, join);
    ghost var v := View(visible);
    transcript := DropSystem(visible);
    assert View(visible) == v;
  }

  method DropSystem<T>(visible: seq<Shared<T>>) returns (transcript: seq<Shared<T>>)
    ensures View(transcript) == WithoutSystem(View(visible))
    ensures forall x | x in transcript :: x in visible
  {
    hide WithoutSystem, View;
    transcript := [];
    ghost var v := View(visible);
    assert v[0..] == v && View(transcript) + WithoutSystem(v) == WithoutSystem(v);
    for i := 0 to |visible|
      invariant View(transcript) + WithoutSystem(v[i..]) == WithoutSystem(v)
      invariant forall x | x in transcript :: x in visible
    {
      NextWithoutSystem(v, i);
      if visible[i].arc.message.role != System {
        ghost var before := View(transcript);
        transcript := transcript + [visible[i]];
        assert View(transcript) == before + [v[i]];
        Assoc(before, [v[i]], WithoutSystem(v[i + 1..]));
      }
    }
    assert v[|visible|..] == [];
    NothingWithoutSystem<T>();
    assert View(transcript) + [] == View(transcript);
    assert View(visible) == v;
  }

  lemma {:induction false} NextWithoutSystem<T>(v: seq<Entry<T>>, i: nat)
    requires i < |v|
    ensures WithoutSystem(v[i..]) == if v[i].IsSystem() then WithoutSystem(v[i + 1..]) else [v[i]] + WithoutSystem(v[i + 1..])
  {
    assert v[i..][0] == v[i] && v[i..][1..] == v[i + 1..];
    assert [] + WithoutSystem(v[i + 1..]) == WithoutSystem(v[i + 1..]);
  }

  lemma {:induction false} NothingWithoutSystem<T>()
    ensures WithoutSystem<T>([]) == []
  {
  }
}
