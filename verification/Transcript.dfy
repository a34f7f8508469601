/** Provider-visible transcripts: messages, and the three passes (filter, merge,
    truncate) that every provider request goes through.

    The passes are written once for entries with an arbitrary tag, as the source writes
    them once for an entry trait: a plain message has tag `()`, a transcript message its
    origin, a shared message the cell that holds it.
 */
module Transcript {
  import opened Text
  import opened Wrappers

  datatype Role = System | User | Assistant | Tool

  /** `arguments` is the JSON value's text. */
  datatype Content =
    | Text(text: string)
    | Image(base64: string, mediaType: string, filename: Option<string>)
    | ToolCall(callId: string, name: string, arguments: string, rawArguments: Option<string>)
    | ToolResult(toolCallId: string, output: string, isError: bool)

  datatype Message = Message(role: Role, content: seq<Content>, name: Option<string>,
                             reasoning: Option<string>)

  datatype Origin = TurnAborted | ToolCallFailed | ToolCallCancelled

  datatype Entry<T> = Entry(message: Message, tag: T) {
    predicate IsTool() { message.role == Tool }

    predicate IsAssistant() { message.role == Assistant }

    predicate IsSystem() { message.role == System }

    /** The ids of the tool calls, and of the tool results, in the message. */
    function Asked(): set<string> { CallIds(message.content) }

    function Results(): set<string> { ResultIds(message.content) }

    /** An assistant message that calls tools. */
    predicate Calls() { IsAssistant() && Asked() != {} }
  }

  function CallIds(content: seq<Content>): set<string> {
    set c | c in content && c.ToolCall? :: c.callId
  }

  function ResultIds(content: seq<Content>): set<string> {
    set c | c in content && c.ToolResult? :: c.toolCallId
  }

  // ---------------------------------------------------------------- pass 1: filter

  predicate ContentIsVisible(c: Content) {
    c.Text? ==> !IsBlank(c.text)
  }

  /** `has_provider_visible_content` */
  predicate Visible(m: Message) {
    || (exists i | 0 <= i < |m.content| :: ContentIsVisible(m.content[i]))
    || (m.reasoning.Some? && !IsBlank(m.reasoning.value))
  }

  function Filter<T>(es: seq<Entry<T>>): seq<Entry<T>> {
    if es == [] then []
    else (if Visible(es[0].message) then [es[0]] else []) + Filter(es[1..])
  }

  // ---------------------------------------------------------------- pass 2: merge

  /** `absorb_assistant`: the contents in order, the first reasoning that is present. */
  function Absorb<T>(a: Entry<T>, b: Entry<T>, join: (T, T) -> T): Entry<T> {
    Entry(
      Message(a.message.role, a.message.content + b.message.content, a.message.name,
              if a.message.reasoning.None? then b.message.reasoning else a.message.reasoning),
      join(a.tag, b.tag))
  }

  function NoTag(a: (), b: ()): () { () }

  /** How `absorb_assistant` combines two origins: `self.origin.or(other.origin)`. */
  function OrOrigin(a: Option<Origin>, b: Option<Origin>): Option<Origin> {
    if a.Some? then a else b
  }

  /** Two neighbours of which the second is absorbed by the first. */
  predicate Mergeable<T>(a: Entry<T>, b: Entry<T>) {
    a.IsAssistant() && b.Calls()
  }

  function Merge<T>(es: seq<Entry<T>>, join: (T, T) -> T): seq<Entry<T>>
    decreases |es|
  {
    if |es| <= 1 then es
    else if Mergeable(es[0], es[1]) then Merge([Absorb(es[0], es[1], join)] + es[2..], join)
    else [es[0]] + Merge(es[1..], join)
  }

  // ---------------------------------------------------------------- pass 3: truncate

  /** What becomes of an open tool round: it never settles, or it settles with the given
      tool messages, the other messages that arrived meanwhile, and what follows. */
  datatype Round<T> =
    | Unsettled
    | Settled(tools: seq<Entry<T>>, bystanders: seq<Entry<T>>, rest: seq<Entry<T>>)

  /** A tool message continues a round when it has results, all of them for calls of the
      round that no earlier message answered. */
  predicate Answers<T>(e: Entry<T>, ids: set<string>, answered: set<string>) {
    var results := e.Results();
    results != {} && results <= ids && results !! answered
  }

  function Settle<T>(ids: set<string>, answered: set<string>, es: seq<Entry<T>>): Round<T>
    decreases |es|
  {
    if es == [] then Unsettled
    else if !es[0].IsTool() then
      match Settle(ids, answered, es[1..])
      case Unsettled => Unsettled
      case Settled(t, b, rest) => Settled(t, [es[0]] + b, rest)
    else if !Answers(es[0], ids, answered) then Unsettled
    else
      var now := answered + es[0].Results();
      if ids <= now then Settled([es[0]], [], es[1..])
      else
        match Settle(ids, now, es[1..])
        case Unsettled => Unsettled
        case Settled(t, b, rest) => Settled([es[0]] + t, b, rest)
  }

  /** The round that the calling message at the front of `es` opens. */
  function Opened<T>(es: seq<Entry<T>>): Round<T>
    requires es != []
  {
    Settle(es[0].Asked(), {}, es[1..])
  }

  lemma {:induction false} SettleShrinks<T>(ids: set<string>, answered: set<string>, es: seq<Entry<T>>)
    requires Settle(ids, answered, es).Settled?
    ensures var r := Settle(ids, answered, es);
            |r.tools| + |r.bystanders| + |r.rest| == |es| && |r.tools| >= 1
    decreases |es|
  {
    if !es[0].IsTool() {
      SettleShrinks(ids, answered, es[1..]);
    } else {
      var now := answered + es[0].Results();
      if !(ids <= now) {
        SettleShrinks(ids, now, es[1..]);
      }
    }
  }

  /** The transcript up to the first orphan result or round that never settles, with the
      bystanders of each settled round moved behind its results. */
  function Truncate<T>(es: seq<Entry<T>>): seq<Entry<T>>
    decreases |es|
  {
    if es == [] || es[0].IsTool() then []
    else if !es[0].Calls() then [es[0]] + Truncate(es[1..])
    else
      var round := Opened(es);
      if round.Unsettled? then []
      else
        SettleShrinks(es[0].Asked(), {}, es[1..]);
        [es[0]] + (round.tools + (round.bystanders + Truncate(round.rest)))
  }

  lemma TruncateUnfolds<T>(es: seq<Entry<T>>)
    requires es != []
    ensures Truncate(es) ==
              if es[0].IsTool() then []
              else if !es[0].Calls() then [es[0]] + Truncate(es[1..])
              else
                match Opened(es)
                case Unsettled => []
                case Settled(tools, bystanders, rest) => [es[0]] + (tools + (bystanders + Truncate(rest)))
  {
    hide Settle;
  }

  /** `provider_visible_entries` */
  function Normalise<T>(es: seq<Entry<T>>, join: (T, T) -> T): seq<Entry<T>> {
    Truncate(Merge(Filter(es), join))
  }

  /** `provider_transcript_messages`: the normalised transcript without system messages. */
  function ProviderTranscript<T>(es: seq<Entry<T>>, join: (T, T) -> T): seq<Entry<T>> {
    WithoutSystem(Normalise(es, join))
  }

  function WithoutSystem<T>(es: seq<Entry<T>>): seq<Entry<T>> {
    if es == [] then []
    else (if es[0].IsSystem() then [] else [es[0]]) + WithoutSystem(es[1..])
  }
}
