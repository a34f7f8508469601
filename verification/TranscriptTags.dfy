/** Normalisation never looks at tags: it commutes with every change of tags that
    respects how two tags are joined.  Erasing origins is one such change, so the plain
    and the origin-keeping entry points compute the same messages.
 */
module TranscriptTags {
  import opened Transcript
  import opened TranscriptLaws
  import opened Wrappers

  function Relabel<T, U>(es: seq<Entry<T>>, h: T -> U): (r: seq<Entry<U>>)
    ensures |r| == |es|
  {
    seq(|es|, i requires 0 <= i < |es| => Entry(es[i].message, h(es[i].tag)))
  }

  ghost predicate Respects<T(!new), U>(h: T -> U, join: (T, T) -> T, join': (U, U) -> U) {
    forall a, b :: h(join(a, b)) == join'(h(a), h(b))
  }

  lemma RelabelParts<T, U>(a: seq<Entry<T>>, b: seq<Entry<T>>, h: T -> U)
    ensures Relabel(a + b, h) == Relabel(a, h) + Relabel(b, h)
  {
  }

  lemma RelabelFront<T, U>(es: seq<Entry<T>>, h: T -> U)
    requires es != []
    ensures Relabel(es, h) == [Entry(es[0].message, h(es[0].tag))] + Relabel(es[1..], h)
    ensures Relabel(es, h)[1..] == Relabel(es[1..], h)
  {
  }

  lemma {:induction false} FilterCommutes<T, U>(es: seq<Entry<T>>, h: T -> U)
    ensures Relabel(Filter(es), h) == Filter(Relabel(es, h))
  {
    hide Visible, Relabel;
    RelabelNone<T, U>(h);
    if es != [] {
      RelabelFront(es, h);
      FilterCommutes(es[1..], h);
      if Visible(es[0].message) {
        RelabelFront([es[0]] + Filter(es[1..]), h);
        assert ([es[0]] + Filter(es[1..]))[1..] == Filter(es[1..]);
      } else {
        assert Filter(es) == Filter(es[1..]);
      }
    }
  }

  lemma {:induction false} MergeCommutes<T(!new), U>(es: seq<Entry<T>>, h: T -> U, join: (T, T) -> T, join': (U, U) -> U)
    requires Respects(h, join, join')
    ensures Relabel(Merge(es, join), h) == Merge(Relabel(es, h), join')
    decreases |es|
  {
    if |es| > 1 {
      RelabelFront(es, h);
      var rs := Relabel(es, h);
      if Mergeable(es[0], es[1]) {
        var ab := Absorb(es[0], es[1], join);
        RelabelFront([ab] + es[2..], h);
        assert ([ab] + es[2..])[1..] == es[2..];
        assert Relabel(es[2..], h) == rs[2..];
        MergeCommutes([ab] + es[2..], h, join, join');
      } else {
        MergeCommutes(es[1..], h, join, join');
        RelabelParts([es[0]], Merge(es[1..], join), h);
      }
    }
  }

  function RelabelRound<T, U>(r: Round<T>, h: T -> U): Round<U> {
    match r
    case Unsettled => Unsettled
    case Settled(t, b, rest) => Settled(Relabel(t, h), Relabel(b, h), Relabel(rest, h))
  }

  lemma {:induction false} SettleCommutes<T, U>(ids: set<string>, answered: set<string>, es: seq<Entry<T>>, h: T -> U)
    ensures Settle(ids, answered, Relabel(es, h)) == RelabelRound(Settle(ids, answered, es), h)
    decreases |es|
  {
    hide Relabel;
    if es != [] {
      RelabelFront(es, h);
      if !es[0].IsTool() {
        SettleCommutes(ids, answered, es[1..], h);
        var r := Settle(ids, answered, es[1..]);
        if r.Settled? { RelabelCons(es[0], r.bystanders, h); }
      } else {
        var now := answered + es[0].Results();
        SettleCommutes(ids, now, es[1..], h);
        var r := Settle(ids, now, es[1..]);
        RelabelNone<T, U>(h);
        RelabelCons(es[0], if r.Settled? then r.tools else [], h);
      }
    }
  }

  lemma RelabelNone<T, U>(h: T -> U)
    ensures Relabel<T, U>([], h) == []
  {
  }

  lemma RelabelCons<T, U>(e: Entry<T>, es: seq<Entry<T>>, h: T -> U)
    ensures Relabel([e] + es, h) == [Entry(e.message, h(e.tag))] + Relabel(es, h)
    ensures Relabel([e], h) == [Entry(e.message, h(e.tag))]
  {
  }

  lemma {:induction false} TruncateCommutes<T, U>(es: seq<Entry<T>>, h: T -> U)
    ensures Relabel(Truncate(es), h) == Truncate(Relabel(es, h))
    decreases |es|
  {
    hide Relabel, Settle;
    if es == [] || es[0].IsTool() {
      RelabelNone<T, U>(h);
      if es != [] { RelabelFront(es, h); }
    } else {
      RelabelFront(es, h);
      if !es[0].Calls() {
        TruncateCommutes(es[1..], h);
        RelabelCons(es[0], Truncate(es[1..]), h);
      } else {
        SettleCommutes(es[0].Asked(), {}, es[1..], h);
        var round := Opened(es);
        if round.Settled? {
          SettleConsumes(es[0].Asked(), {}, es[1..]);
          TruncateCommutes(round.rest, h);
          RelabelCons(es[0], round.tools + (round.bystanders + Truncate(round.rest)), h);
          RelabelParts(round.tools, round.bystanders + Truncate(round.rest), h);
          RelabelParts(round.bystanders, Truncate(round.rest), h);
        } else {
          RelabelNone<T, U>(h);
        }
      }
    }
  }

  /** Normalising and then changing tags is changing tags and then normalising. */
  lemma NormaliseCommutes<T(!new), U>(es: seq<Entry<T>>, h: T -> U, join: (T, T) -> T, join': (U, U) -> U)
    requires Respects(h, join, join')
    ensures Relabel(Normalise(es, join), h) == Normalise(Relabel(es, h), join')
  {
    FilterCommutes(es, h);
    MergeCommutes(Filter(es), h, join, join');
    TruncateCommutes(Merge(Filter(es), join), h);
  }

  function Forget(origin: Option<Origin>): () { () }

  lemma {:induction false} WithoutSystemCommutes<T, U>(es: seq<Entry<T>>, h: T -> U)
    ensures Relabel(WithoutSystem(es), h) == WithoutSystem(Relabel(es, h))
  {
    hide Relabel;
    if es == [] {
      RelabelNone<T, U>(h);
    } else {
      RelabelFront(es, h);
      WithoutSystemCommutes(es[1..], h);
      RelabelParts(if es[0].IsSystem() then [] else [es[0]], WithoutSystem(es[1..]), h);
      RelabelCons(es[0], [], h);
      RelabelNone<T, U>(h);
    }
  }

  /** The origin-keeping transcript has the messages of the plain one, before and after
      its system messages are dropped. */
  lemma ErasingOriginsCommutes(es: seq<Entry<Option<Origin>>>)
    ensures Relabel(Normalise(es, OrOrigin), Forget) == Normalise(Relabel(es, Forget), NoTag)
    ensures Relabel(ProviderTranscript(es, OrOrigin), Forget) == ProviderTranscript(Relabel(es, Forget), NoTag)
  {
    NormaliseCommutes(es, Forget, OrOrigin, NoTag);
    WithoutSystemCommutes(Normalise(es, OrOrigin), Forget);
  }
}
