/** `TextDeltaAccumulator`: accepts both true deltas and cumulative full texts, and
    emits each character of the final text once.
 */
module DeltaAccumulator {
  import opened Wrappers

  datatype Accumulator = Accumulator(text: string, incremental: bool)

  const START := Accumulator([], false)

  /** One fragment: the new state, and the delta to send downstream. */
  function Feed(a: Accumulator, fragment: string): (Accumulator, Option<string>) {
    if fragment == [] then (a, None)
    else if a.text == [] || a.incremental then (Accumulator(a.text + fragment, a.incremental), Some(fragment))
    else if a.text <= fragment then
      if |fragment| <= |a.text| then (a, None)
      else (Accumulator(fragment, false), Some(fragment[|a.text|..]))
    else if fragment <= a.text then (a, None)
    else (Accumulator(a.text + fragment, true), Some(fragment))
  }

  class TextDeltaAccumulator {
    var accumulated: string
    var incrementalConfirmed: bool

    function Value(): Accumulator
      reads this
    {
      Accumulator(accumulated, incrementalConfirmed)
    }

    constructor ()
      ensures Value() == START
    {
      accumulated := [];
      incrementalConfirmed := false;
    }

    method Push(fragment: string) returns (delta: Option<string>)
      modifies this
      ensures (Value(), delta) == Feed(old(Value()), fragment)
      ensures accumulated == old(accumulated) + (if delta.Some? then delta.value else [])
      ensures delta.Some? ==> delta.value != []
    {
      if fragment == [] {
        return None;
      }
      if accumulated == [] || incrementalConfirmed {
        accumulated := accumulated + fragment;
        return Some(fragment);
      }
      if accumulated <= fragment {
        if |fragment| <= |accumulated| {
          return None;
        }
        var incremental := fragment[|accumulated|..];
        accumulated := fragment;
        return Some(incremental);
      }
      if fragment <= accumulated {
        return None;
      }
      incrementalConfirmed := true;
      accumulated := accumulated + fragment;
      delta := Some(fragment);
    }
  }

  // ---------------------------------------------------------------- runs

  function Run(a: Accumulator, fragments: seq<string>): Accumulator
    decreases |fragments|
  {
    if fragments == [] then a else Run(Feed(a, fragments[0]).0, fragments[1..])
  }

  /** Everything sent downstream, concatenated. */
  function Emitted(a: Accumulator, fragments: seq<string>): string
    decreases |fragments|
  {
    if fragments == [] then []
    else
      var (next, delta) := Feed(a, fragments[0]);
      (if delta.Some? then delta.value else []) + Emitted(next, fragments[1..])
  }

  function Concat(fragments: seq<string>): string {
    if fragments == [] then [] else fragments[0] + Concat(fragments[1..])
  }

  /** The deltas sent downstream always add up to the accumulated text. */
  lemma {:induction false} EmittedAddsUp(a: Accumulator, fragments: seq<string>)
    ensures a.text + Emitted(a, fragments) == Run(a, fragments).text
    decreases |fragments|
  {
    if fragments != [] {
      var (next, delta) := Feed(a, fragments[0]);
      var d := if delta.Some? then delta.value else [];
      assert next.text == a.text + d;
      EmittedAddsUp(next, fragments[1..]);
      Assoc(a.text, d, Emitted(next, fragments[1..]));
    }
  }

  ghost predicate Comparable(a: string, b: string) {
    a <= b || b <= a
  }

  /** A cumulative stream: of any two fragments one begins with the other. */
  ghost predicate Cumulative(fragments: seq<string>) {
    forall i, j | 0 <= i < |fragments| && 0 <= j < |fragments| :: Comparable(fragments[i], fragments[j])
  }

  /** The longest fragment, the earliest of that length. */
  function Longest(fragments: seq<string>): string {
    if fragments == [] then []
    else
      var n := |fragments| - 1;
      var before := Longest(fragments[..n]);
      if |fragments[n]| > |before| then fragments[n] else before
  }

  /** Every fragment of a cumulative stream begins the longest one. */
  lemma {:induction false} LongestCovers(fragments: seq<string>)
    requires Cumulative(fragments)
    ensures Longest(fragments) == [] || Longest(fragments) in fragments
    ensures forall i | 0 <= i < |fragments| :: fragments[i] <= Longest(fragments)
    decreases |fragments|
  {
    if fragments != [] {
      var n := |fragments| - 1;
      var init := fragments[..n];
      CumulativeInit(fragments, n);
      LongestCovers(init);
      var before := Longest(init);
      if before != [] {
        var k :| 0 <= k < n && init[k] == before;
        assert Comparable(fragments[k], fragments[n]);
      }
      forall i | 0 <= i < |fragments| ensures fragments[i] <= Longest(fragments) {
        if i < n { assert fragments[i] == init[i] <= before; }
      }
    }
  }

  lemma {:induction false} RunSplits(a: Accumulator, xs: seq<string>, ys: seq<string>)
    ensures Run(a, xs + ys) == Run(Run(a, xs), ys)
    decreases |xs|
  {
    if xs == [] {
      assert xs + ys == ys;
    } else {
      RunSplits(Feed(a, xs[0]).0, xs[1..], ys);
      assert (xs + ys)[0] == xs[0] && (xs + ys)[1..] == xs[1..] + ys;
    }
  }

  lemma FeedComparable(text: string, f: string)
    requires Comparable(f, text)
    ensures Feed(Accumulator(text, false), f).0 == Accumulator(if |f| > |text| then f else text, false)
  {
  }

  lemma CumulativeInit(fragments: seq<string>, n: nat)
    requires Cumulative(fragments) && n <= |fragments|
    ensures Cumulative(fragments[..n])
  {
    var init := fragments[..n];
    forall i, j | 0 <= i < n && 0 <= j < n ensures Comparable(init[i], init[j]) {
      assert Comparable(fragments[i], fragments[j]);
    }
  }

  lemma NextIsComparable(fragments: seq<string>)
    requires Cumulative(fragments) && fragments != []
    ensures Comparable(fragments[|fragments| - 1], Longest(fragments[..|fragments| - 1]))
  {
    var n := |fragments| - 1;
    var init := fragments[..n];
    CumulativeInit(fragments, n);
    LongestCovers(init);
    if Longest(init) != [] {
      var k :| 0 <= k < n && init[k] == Longest(init);
      assert Comparable(fragments[n], fragments[k]);
    }
  }

  /** A cumulative stream yields exactly its longest fragment. */
  lemma {:induction false} CumulativeYieldsLongest(fragments: seq<string>)
    requires Cumulative(fragments)
    ensures Run(START, fragments) == Accumulator(Longest(fragments), false)
    decreases |fragments|
  {
    hide Cumulative, Feed;
    if fragments != [] {
      var n := |fragments| - 1;
      var init, last := fragments[..n], fragments[n];
      CumulativeInit(fragments, n);
      CumulativeYieldsLongest(init);
      assert init + [last] == fragments;
      RunSplits(START, init, [last]);
      var a := Accumulator(Longest(init), false);
      assert Run(a, [last]) == Feed(a, last).0;
      NextIsComparable(fragments);
      FeedComparable(Longest(init), last);
    }
  }

  /** Once a fragment neither extends nor repeats the text, the stream is incremental:
      what follows is appended as it comes. */
  lemma {:induction false} IncrementalAppends(text: string, fragments: seq<string>)
    ensures Run(Accumulator(text, true), fragments) == Accumulator(text + Concat(fragments), true)
    decreases |fragments|
  {
    if fragments == [] {
      assert text + [] == text;
    } else {
      var f := fragments[0];
      assert text + f == if f == [] then text else text + f;
      IncrementalAppends(text + f, fragments[1..]);
      Assoc(text, f, Concat(fragments[1..]));
    }
  }

  /** A cumulative beginning, then a fragment that fits neither way: the longest fragment
      of the beginning, and everything after it in full. */
  lemma BrokenStreamAppends(begin: seq<string>, f: string, rest: seq<string>)
    requires Cumulative(begin) && !Comparable(f, Longest(begin))
    ensures Run(START, begin + ([f] + rest)).text == Longest(begin) + f + Concat(rest)
  {
    var a := Accumulator(Longest(begin), false);
    CumulativeYieldsLongest(begin);
    RunSplits(START, begin, [f] + rest);
    assert ([f] + rest)[0] == f && ([f] + rest)[1..] == rest;
    assert Feed(a, f).0 == Accumulator(a.text + f, true);
    IncrementalAppends(a.text + f, rest);
  }

  /** Every stream is of one of the two kinds. */
  lemma {:induction false} StreamKinds(fragments: seq<string>)
    ensures Cumulative(fragments)
         || exists k :: && 0 <= k < |fragments| && Cumulative(fragments[..k])
                        && !Comparable(fragments[k], Longest(fragments[..k]))
    decreases |fragments|
  {
    if fragments != [] {
      var n := |fragments| - 1;
      var init := fragments[..n];
      StreamKinds(init);
      if Cumulative(init) {
        if Comparable(fragments[n], Longest(init)) {
          CumulativeExtends(init, fragments[n]);
          assert init + [fragments[n]] == fragments;
        }
      } else {
        var k :| 0 <= k < |init| && Cumulative(init[..k]) && !Comparable(init[k], Longest(init[..k]));
        assert init[..k] == fragments[..k] && init[k] == fragments[k];
      }
    }
  }

  lemma CumulativeExtends(init: seq<string>, f: string)
    requires Cumulative(init) && Comparable(f, Longest(init))
    ensures Cumulative(init + [f])
  {
    LongestCovers(init);
    var all := init + [f];
    forall i, j | 0 <= i < |all| && 0 <= j < |all| ensures Comparable(all[i], all[j]) {
      if i < |init| && j < |init| {
        assert Comparable(init[i], init[j]);
      } else {
        assert i < |init| ==> init[i] <= Longest(init);
        assert j < |init| ==> init[j] <= Longest(init);
      }
    }
  }

  lemma {:induction false} ConcatSplits(xs: seq<string>, ys: seq<string>)
    ensures Concat(xs + ys) == Concat(xs) + Concat(ys)
  {
    if xs == [] {
      assert xs + ys == ys;
    } else {
      ConcatSplits(xs[1..], ys);
      assert (xs + ys)[0] == xs[0] && (xs + ys)[1..] == xs[1..] + ys;
      Assoc(xs[0], Concat(xs[1..]), Concat(ys));
    }
  }

  ghost predicate AtMostOneNonEmpty(fragments: seq<string>) {
    forall i, j | 0 <= i < j < |fragments| :: fragments[i] == [] || fragments[j] == []
  }

  lemma {:induction false} AllEmpty(fragments: seq<string>)
    requires forall i | 0 <= i < |fragments| :: fragments[i] == []
    ensures Longest(fragments) == []
    ensures Concat(fragments) == []
    decreases |fragments|
  {
    if fragments != [] {
      AllEmpty(fragments[..|fragments| - 1]);
      AllEmpty(fragments[1..]);
    }
  }

  lemma {:induction false} OneFragmentIsAll(fragments: seq<string>)
    requires AtMostOneNonEmpty(fragments)
    ensures Concat(fragments) == Longest(fragments)
    decreases |fragments|
  {
    if fragments != [] {
      var n := |fragments| - 1;
      var init, last := fragments[..n], fragments[n];
      if last != [] { AllEmpty(init); }
      OneFragmentIsAll(init);
      assert init + [last] == fragments;
      ConcatSplits(init, [last]);
      assert Concat([last]) == last + [] == last;
    }
  }

  /** The incremental case that providers send: a second non-empty fragment that neither
      begins nor continues the first, then anything, add up to the concatenation of all
      fragments. */
  lemma DeltasConcatenate(begin: seq<string>, second: string, rest: seq<string>)
    requires AtMostOneNonEmpty(begin) && !Comparable(second, Longest(begin))
    ensures Run(START, begin + ([second] + rest)).text == Concat(begin + ([second] + rest))
  {
    OneFragmentIsAll(begin);
    forall i, j | 0 <= i < |begin| && 0 <= j < |begin| ensures Comparable(begin[i], begin[j]) {
      assert i < j ==> begin[i] == [] || begin[j] == [];
      assert j < i ==> begin[j] == [] || begin[i] == [];
    }
    BrokenStreamAppends(begin, second, rest);
    ConcatSplits(begin, [second] + rest);
    assert ([second] + rest)[0] == second && ([second] + rest)[1..] == rest;
    Assoc(Longest(begin), second, Concat(rest));
  }

  // ---------------------------------------------------------------- the accumulator at work

  /** A whole stream through one accumulator: what is sent adds up to the text, and the text
      is the longest fragment of a cumulative stream, or that of its cumulative beginning
      followed by everything after it in full. */
  method Accumulate(fragments: seq<string>) returns (text: string, deltas: seq<string>)
    ensures text == Run(START, fragments).text
    ensures Concat(deltas) == text && [] !in deltas
    ensures Cumulative(fragments) ==> text == Longest(fragments)
    ensures forall k | 0 <= k < |fragments| && BreaksAt(fragments, k) ::
              text == Longest(fragments[..k]) + fragments[k] + Concat(fragments[k + 1..])
  {
    hide Feed, Cumulative, Longest, BreaksAt;
    var accumulator := new TextDeltaAccumulator();
    deltas := [];
    assert fragments[0..] == fragments;
    for i := 0 to |fragments|
      invariant fresh(accumulator)
      invariant Run(accumulator.Value(), fragments[i..]) == Run(START, fragments)
      invariant Concat(deltas) == accumulator.accumulated && [] !in deltas
    {
      assert fragments[i..][0] == fragments[i] && fragments[i..][1..] == fragments[i + 1..];
      var delta := accumulator.Push(fragments[i]);
      if delta.Some? {
        ConcatSplits(deltas, [delta.value]);
        ConcatOne(delta.value);
        deltas := deltas + [delta.value];
      }
    }
    text := accumulator.accumulated;
    if Cumulative(fragments) { CumulativeYieldsLongest(fragments); }
    forall k | 0 <= k < |fragments| && BreaksAt(fragments, k)
      ensures text == Longest(fragments[..k]) + fragments[k] + Concat(fragments[k + 1..])
    {
      TextAfterBreak(fragments, k);
    }
  }

  /** The first `k` fragments are cumulative, the next fits neither way. */
  ghost predicate BreaksAt(fragments: seq<string>, k: nat)
    requires k < |fragments|
  {
    Cumulative(fragments[..k]) && !Comparable(fragments[k], Longest(fragments[..k]))
  }

  lemma TextAfterBreak(fragments: seq<string>, k: nat)
    requires k < |fragments| && BreaksAt(fragments, k)
    ensures Run(START, fragments).text == Longest(fragments[..k]) + fragments[k] + Concat(fragments[k + 1..])
  {
    hide Run, Cumulative, Longest, Comparable;
    BrokenStreamAppends(fragments[..k], fragments[k], fragments[k + 1..]);
    assert fragments[..k] + ([fragments[k]] + fragments[k + 1..]) == fragments;
  }

  lemma ConcatOne(s: string)
    ensures Concat([s]) == s
  {
    assert [s][1..] == [];
  }
}
