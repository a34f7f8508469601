/** Discovery of MCP tools: every configured server is asked for its tools, and the answers, in
    configuration order, fill the index from built names to the tool that serves them.
 */
module McpDiscovery {
  import opened McpNames
  import opened Wrappers

  datatype McpServer = McpServer(name: string, command: string)

  datatype McpTool = McpTool(name: string, description: string)

  datatype Offer = Offer(server: McpServer, tool: McpTool)

  datatype Answer = Answer(server: McpServer, listing: Result<seq<McpTool>, string>)

  datatype Diagnostic =
    | EmptyName(server: string, tool: string)
    | DuplicateName(name: string)
    | DiscoveryFailed(server: string, error: string)

  function NameOf(offer: Offer): Option<string> { ToolName(offer.server.name, offer.tool.name) }

  // ---------------------------------------------------------------- who serves a name

  function OffersOf(server: McpServer, tools: seq<McpTool>): (offers: seq<Offer>)
    ensures |offers| == |tools|
    ensures forall i | 0 <= i < |tools| :: offers[i] == Offer(server, tools[i])
  {
    seq(|tools|, i requires 0 <= i < |tools| => Offer(server, tools[i]))
  }

  /** Everything offered, in discovery order. */
  function Offers(answers: seq<Answer>): seq<Offer> {
    if answers == [] then []
    else
      var last := answers[|answers| - 1];
      Offers(answers[..|answers| - 1])
      + (if last.listing.Ok? then OffersOf(last.server, last.listing.value) else [])
  }

  function Failures(answers: seq<Answer>): nat {
    if answers == [] then 0
    else Failures(answers[..|answers| - 1]) + (if answers[|answers| - 1].listing.Err? then 1 else 0)
  }

  /** The first offer of a name, or `|offers|`. */
  function FirstOffer(offers: seq<Offer>, name: string): (k: nat)
    ensures k <= |offers|
    ensures k < |offers| ==> NameOf(offers[k]) == Some(name)
    ensures forall i | 0 <= i < k :: NameOf(offers[i]) != Some(name)
  {
    if offers == [] || NameOf(offers[0]) == Some(name) then 0
    else
      var k := 1 + FirstOffer(offers[1..], name);
      assert forall i | 1 <= i < k :: offers[i] == offers[1..][i - 1];
      k
  }

  predicate IsNew(offers: seq<Offer>, offer: Offer) {
    NameOf(offer).Some? && FirstOffer(offers, NameOf(offer).value) == |offers|
  }

  /** The offers that get a place in the index: the first of each name. */
  function Winners(offers: seq<Offer>): seq<Offer> {
    if offers == [] then []
    else
      var before, last := offers[..|offers| - 1], offers[|offers| - 1];
      Winners(before) + (if IsNew(before, last) then [last] else [])
  }

  /** What is noted about an offer that gets no place. */
  function Remark(before: seq<Offer>, offer: Offer): seq<Diagnostic> {
    if NameOf(offer).None? then [EmptyName(offer.server.name, offer.tool.name)]
    else if IsNew(before, offer) then []
    else [DuplicateName(NameOf(offer).value)]
  }

  function RemarksOn(before: seq<Offer>, offers: seq<Offer>): seq<Diagnostic> {
    if offers == [] then []
    else
      var n := |offers| - 1;
      RemarksOn(before, offers[..n]) + Remark(before + offers[..n], offers[n])
  }

  /** Everything noted during discovery, in its order. */
  function Remarks(answers: seq<Answer>): seq<Diagnostic> {
    if answers == [] then []
    else
      var before, last := answers[..|answers| - 1], answers[|answers| - 1];
      Remarks(before)
      + match last.listing
        case Ok(tools) => RemarksOn(Offers(before), OffersOf(last.server, tools))
        case Err(error) => [DiscoveryFailed(last.server.name, error)]
  }

  lemma RemarksGrow(before: seq<Offer>, offers: seq<Offer>, j: nat)
    requires j < |offers|
    ensures RemarksOn(before, offers[..j + 1]) == RemarksOn(before, offers[..j]) + Remark(before + offers[..j], offers[j])
  {
    hide Remark;
    assert offers[..j + 1][..j] == offers[..j];
  }

  lemma RemarkIs(before: seq<Offer>, offer: Offer)
    ensures Remark(before, offer) ==
              if NameOf(offer).None? then [EmptyName(offer.server.name, offer.tool.name)]
              else if IsNew(before, offer) then []
              else [DuplicateName(NameOf(offer).value)]
  {
  }

  lemma FirstOfferGrows(offers: seq<Offer>, offer: Offer, name: string)
    ensures FirstOffer(offers + [offer], name)
         == (var k := FirstOffer(offers, name);
             if k < |offers| || NameOf(offer) == Some(name) then k else k + 1)
  {
    hide NameOf;
    var all := offers + [offer];
    var k, l := FirstOffer(offers, name), FirstOffer(all, name);
    assert forall i | 0 <= i < |offers| :: all[i] == offers[i];
    assert all[|offers|] == offer;
    assert k < |offers| ==> NameOf(all[k]) == Some(name);
    assert l < |offers| ==> NameOf(offers[l]) == Some(name);
  }

  lemma WinnersGrow(offers: seq<Offer>, offer: Offer)
    ensures Winners(offers + [offer]) == Winners(offers) + (if IsNew(offers, offer) then [offer] else [])
  {
    hide IsNew;
    var all := offers + [offer];
    assert all[..|all| - 1] == offers;
  }

  // ---------------------------------------------------------------- the index

  /** The index of some offers: it knows exactly the offered names, and sends each to the
      first offer of it. */
  ghost predicate Indexes(lookup: map<string, Offer>, offers: seq<Offer>) {
    forall name :: Sends(lookup, offers, name)
  }

  ghost predicate Sends(lookup: map<string, Offer>, offers: seq<Offer>, name: string) {
    var k := FirstOffer(offers, name);
    && (name in lookup <==> k < |offers|)
    && (name in lookup ==> lookup[name] == offers[k])
  }

  lemma IndexGrows(lookup: map<string, Offer>, offers: seq<Offer>, offer: Offer)
    requires Indexes(lookup, offers)
    ensures IsNew(offers, offer) ==> Indexes(lookup[NameOf(offer).value := offer], offers + [offer])
    ensures !IsNew(offers, offer) ==> Indexes(lookup, offers + [offer])
    ensures IsNew(offers, offer) <==> NameOf(offer).Some? && NameOf(offer).value !in lookup
  {
    hide NameOf, FirstOffer;
    var after := if IsNew(offers, offer) then lookup[NameOf(offer).value := offer] else lookup;
    assert NameOf(offer).Some? ==> Sends(lookup, offers, NameOf(offer).value);
    forall name
      ensures Sends(after, offers + [offer], name)
    {
      assert Sends(lookup, offers, name);
      FirstOfferGrows(offers, offer, name);
    }
  }

  /** `discover_from_pool`, after the servers have answered. */
  method DiscoverFromPool(configDiagnostics: seq<Diagnostic>, answers: seq<Answer>)
    returns (lookup: map<string, Offer>, candidates: seq<Offer>, diagnostics: seq<Diagnostic>, discoveryFailed: bool)
    ensures Indexes(lookup, Offers(answers))
    ensures candidates == Winners(Offers(answers))
    ensures discoveryFailed <==> exists i | 0 <= i < |answers| :: answers[i].listing.Err?
    ensures diagnostics == configDiagnostics + Remarks(answers)
    ensures |candidates| + |diagnostics| == |Offers(answers)| + Failures(answers) + |configDiagnostics|
  {
    hide *;
    lookup, candidates, diagnostics, discoveryFailed := map[], [], configDiagnostics, false;
    ghost var offers: seq<Offer> := [];
    NothingIndexed();
    for i := 0 to |answers|
      invariant offers == Offers(answers[..i])
      invariant Indexes(lookup, offers) && candidates == Winners(offers)
      invariant discoveryFailed <==> exists j | 0 <= j < i :: answers[j].listing.Err?
      invariant diagnostics == configDiagnostics + Remarks(answers[..i])
      invariant |candidates| + |diagnostics| == |offers| + Failures(answers[..i]) + |configDiagnostics|
    {
      NextAnswer(answers, i);
      var server := answers[i].server;
      match answers[i].listing
      case Ok(tools) =>
        ghost var before := offers;
        ghost var all, noted := OffersOf(server, tools), diagnostics;
        assert all[..0] == [] && diagnostics == noted + RemarksOn(before, all[..0]);
        for j := 0 to |tools|
          invariant offers == before + all[..j]
          invariant Indexes(lookup, offers) && candidates == Winners(offers)
          invariant diagnostics == noted + RemarksOn(before, all[..j])
          invariant |candidates| + |diagnostics| == |offers| + Failures(answers[..i]) + |configDiagnostics|
        {
          var offer := Offer(server, tools[j]);
          var name := BuildToolName(server.name, tools[j].name);
          assert name == NameOf(offer) by { NameOfIs(offer); }
          IndexGrows(lookup, offers, offer);
          WinnersGrow(offers, offer);
          RemarksGrow(before, all, j);
          RemarkIs(offers, offer);
          Assoc(noted, RemarksOn(before, all[..j]), Remark(offers, offer));
          if name.None? {
            diagnostics := diagnostics + [EmptyName(server.name, tools[j].name)];
          } else if name.value !in lookup {
            lookup := lookup[name.value := offer];
            candidates := candidates + [offer];
          } else {
            diagnostics := diagnostics + [DuplicateName(name.value)];
          }
          assert all[..j + 1] == all[..j] + [offer];
          Assoc(before, all[..j], [offer]);
          offers := offers + [offer];
        }
        assert all[..|tools|] == all;
        Assoc(configDiagnostics, Remarks(answers[..i]), RemarksOn(before, all));
      case Err(error) =>
        discoveryFailed := true;
        Assoc(configDiagnostics, Remarks(answers[..i]), [DiscoveryFailed(server.name, error)]);
        diagnostics := diagnostics + [DiscoveryFailed(server.name, error)];
    }
    assert answers[..|answers|] == answers;
  }

  lemma NothingIndexed()
    ensures Indexes(map[], []) && Winners([]) == [] && Offers([]) == [] && Failures([]) == 0
    ensures Remarks([]) == [] && forall before :: RemarksOn(before, []) == []
  {
  }

  lemma NextAnswer(answers: seq<Answer>, i: nat)
    requires i < |answers|
    ensures answers[i].listing.Ok? ==>
              && Offers(answers[..i + 1]) == Offers(answers[..i]) + OffersOf(answers[i].server, answers[i].listing.value)
              && Failures(answers[..i + 1]) == Failures(answers[..i])
              && Remarks(answers[..i + 1]) == Remarks(answers[..i])
                 + RemarksOn(Offers(answers[..i]), OffersOf(answers[i].server, answers[i].listing.value))
    ensures answers[i].listing.Err? ==>
              && Offers(answers[..i + 1]) == Offers(answers[..i])
              && Failures(answers[..i + 1]) == Failures(answers[..i]) + 1
              && Remarks(answers[..i + 1]) == Remarks(answers[..i])
                 + [DiscoveryFailed(answers[i].server.name, answers[i].listing.error)]
  {
    assert answers[..i + 1][..i] == answers[..i];
  }

  lemma NameOfIs(offer: Offer)
    ensures NameOf(offer) == ToolName(offer.server.name, offer.tool.name)
  {
  }

  // ---------------------------------------------------------------- what the index promises

  ghost predicate WinsAt(offers: seq<Offer>, winner: Offer, k: nat) {
    && k < |offers| && offers[k] == winner && NameOf(winner).Some?
    && FirstOffer(offers, NameOf(winner).value) == k
  }

  /** The advertised tools are the first offers of their names, in discovery order, each
      name once. */
  lemma {:induction false} WinnersAreFirst(offers: seq<Offer>) returns (at: seq<nat>)
    ensures |at| == |Winners(offers)|
    ensures forall i | 0 <= i < |at| :: WinsAt(offers, Winners(offers)[i], at[i])
    ensures forall i, j | 0 <= i < j < |at| :: at[i] < at[j]
  {
    hide NameOf, FirstOffer;
    at := [];
    if offers != [] {
      var before, last := offers[..|offers| - 1], offers[|offers| - 1];
      assert offers == before + [last];
      at := WinnersAreFirst(before);
      WinnersGrow(before, last);
      forall i | 0 <= i < |at|
        ensures WinsAt(offers, Winners(before)[i], at[i]) && at[i] < |before|
      {
        assert WinsAt(before, Winners(before)[i], at[i]);
        FirstOfferGrows(before, last, NameOf(Winners(before)[i]).value);
      }
      if IsNew(before, last) {
        FirstOfferGrows(before, last, NameOf(last).value);
        at := at + [|before|];
      }
    }
  }

  /** The advertised tools and the index agree: an advertised name is sent to the tool it
      was advertised for, and every name in the index is advertised. */
  lemma AdvertisedIsServed(lookup: map<string, Offer>, offers: seq<Offer>)
    requires Indexes(lookup, offers)
    ensures forall w | w in Winners(offers) ::
              NameOf(w).Some? && NameOf(w).value in lookup && lookup[NameOf(w).value] == w
    ensures forall name | name in lookup :: lookup[name] in Winners(offers) && NameOf(lookup[name]) == Some(name)
  {
    hide NameOf, FirstOffer, Winners;
    var at := WinnersAreFirst(offers);
    forall w | w in Winners(offers)
      ensures NameOf(w).Some? && NameOf(w).value in lookup && lookup[NameOf(w).value] == w
    {
      var i :| 0 <= i < |Winners(offers)| && Winners(offers)[i] == w;
      assert WinsAt(offers, Winners(offers)[i], at[i]);
      assert Sends(lookup, offers, NameOf(w).value);
    }
    forall name | name in lookup
      ensures lookup[name] in Winners(offers) && NameOf(lookup[name]) == Some(name)
    {
      assert Sends(lookup, offers, name);
      FirstWins(offers, name);
    }
  }

  lemma {:induction false} FirstWins(offers: seq<Offer>, name: string)
    requires FirstOffer(offers, name) < |offers|
    ensures offers[FirstOffer(offers, name)] in Winners(offers)
  {
    hide NameOf, FirstOffer;
    if offers != [] {
      var before, last := offers[..|offers| - 1], offers[|offers| - 1];
      assert offers == before + [last];
      FirstOfferGrows(before, last, name);
      WinnersGrow(before, last);
      if FirstOffer(before, name) < |before| {
        FirstWins(before, name);
      }
    }
  }

  /** An offered tool is reached under its name exactly when no earlier offer, of any server,
      agrees with it word by word; otherwise the call goes to the earliest that does. */
  lemma CallReachesFirst(lookup: map<string, Offer>, offers: seq<Offer>, k: nat)
    requires Indexes(lookup, offers)
    requires k < |offers| && NameOf(offers[k]).Some?
    ensures var name := NameOf(offers[k]).value;
            && name in lookup
            && SameWords(lookup[name], offers[k])
            && exists m: nat | m <= k ::
                 && lookup[name] == offers[m] && SameWords(offers[m], offers[k])
                 && (forall i | 0 <= i < m :: !SameWords(offers[i], offers[k]))
  {
    hide NameOf, FirstOffer, Words;
    var name := NameOf(offers[k]).value;
    assert Sends(lookup, offers, name);
    var m := FirstOffer(offers, name);
    assert m <= k;
    forall i | 0 <= i <= m
      ensures SameWords(offers[i], offers[k]) <==> i == m
    {
      SameNameIffSameWords(offers[i], offers[k]);
    }
  }

  predicate SameWords(a: Offer, b: Offer) {
    Words(a.server.name) == Words(b.server.name) && Words(a.tool.name) == Words(b.tool.name)
  }

  lemma SameNameIffSameWords(a: Offer, b: Offer)
    requires NameOf(b).Some?
    ensures NameOf(a) == NameOf(b) <==> SameWords(a, b)
  {
    hide Words;
    if NameOf(a).Some? {
      NamesIdentifyWords(a.server.name, a.tool.name, b.server.name, b.tool.name);
    }
  }
}
