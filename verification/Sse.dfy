/**
  The event stream between the agent and the browser (nora-sse.client.ts and
  event_stream in main.py). Chunks are characters; JSON is a pair of functions.
 */
module Sse {
  import opened Prelude
  import opened Text

  datatype Event<J> = Data(json: J) | Done

  const PREFIX := "data:"
  const DONE := "[DONE]"

  /** What the client does with one complete line. */
  function Handle<J>(line: string, parse: string -> Option<J>): seq<Event<J>> {
    if |line| >= 5 && line[..5] == PREFIX then
      var data := Trim(line[5..]);
      if data == DONE then [Done]
      else match parse(data) case Some(json) => [Data(json)] case None => []
    else []
  }

  function Deliver<J>(lines: seq<string>, parse: string -> Option<J>): seq<Event<J>> {
    if lines == [] then [] else Deliver(lines[..|lines| - 1], parse) + Handle(lines[|lines| - 1], parse)
  }

  /** The events of a text received whole: those of its complete lines. */
  function EventsOf<J>(text: string, parse: string -> Option<J>): seq<Event<J>> { Deliver(Complete(text), parse) }

  function Concat(chunks: seq<string>): string {
    if chunks == [] then "" else Concat(chunks[..|chunks| - 1]) + chunks[|chunks| - 1]
  }

  lemma DeliverOneMore<J>(lines: seq<string>, line: string, parse: string -> Option<J>)
    ensures Deliver(lines + [line], parse) == Deliver(lines, parse) + Handle(line, parse)
  {
    assert (lines + [line])[..|lines|] == lines;
  }

  lemma {:induction false} DeliverConcat<J>(a: seq<string>, b: seq<string>, parse: string -> Option<J>)
    ensures Deliver(a + b, parse) == Deliver(a, parse) + Deliver(b, parse)
  {
    hide Handle;
    if b == [] {
      assert a + b == a;
    } else {
      var n := |b| - 1;
      DeliverConcat(a, b[..n], parse);
      assert a + b == (a + b[..n]) + [b[n]] && b == b[..n] + [b[n]];
      DeliverOneMore(a + b[..n], b[n], parse);
      DeliverOneMore(b[..n], b[n], parse);
    }
  }

  /** One chunk more: the open line is completed, then the new complete lines follow. */
  lemma ChunkStep(a: string, b: string)
    ensures Complete(a + b) == Complete(a) + Complete(Pending(a) + b)
    ensures Pending(a + b) == Pending(Pending(a) + b)
  {
    SplitConcat(a, b);
  }

  lemma NothingYet()
    ensures Pending("") == "" && Complete("") == []
  {
  }

  /** The inner loop over the complete lines of the buffer. */
  method HandleLines<J>(before: seq<Event<J>>, lines: seq<string>, parse: string -> Option<J>) returns (events: seq<Event<J>>)
    ensures events == before + Deliver(lines, parse)
  {
    hide Trim;
    events := before;
    for j := 0 to |lines|
      invariant events == before + Deliver(lines[..j], parse)
    {
      var line := lines[j];
      assert lines[..j + 1][..j] == lines[..j];
      assert Deliver(lines[..j + 1], parse) == Deliver(lines[..j], parse) + Handle(line, parse);
      if |line| >= 5 && line[..5] == PREFIX {
        var data := Trim(line[5..]);
        if data == DONE {
          events := events + [Done];
          continue;
        }
        match parse(data)
        case Some(json) => events := events + [Data(json)];
        case None =>
      }
    }
    assert lines[..|lines|] == lines;
  }

  /** The read loop delivers, however the stream is cut, what the uncut text would give. */
  method StreamNoraMessage<J>(chunks: seq<string>, parse: string -> Option<J>) returns (events: seq<Event<J>>)
    ensures events == EventsOf(Concat(chunks), parse)
  {
    hide Split, Trim, Handle, Complete, Pending;
    NothingYet();
    var buffer := "";
    events := [];
    for i := 0 to |chunks|
      invariant buffer == Pending(Concat(chunks[..i]))
      invariant events == EventsOf(Concat(chunks[..i]), parse)
    {
      ghost var received := Concat(chunks[..i]);
      ChunkStep(received, chunks[i]);
      buffer := buffer + chunks[i];
      var lines := Complete(buffer);
      buffer := Pending(buffer);
      DeliverConcat(Complete(received), lines, parse);
      events := HandleLines(events, lines, parse);
      assert chunks[..i + 1][..i] == chunks[..i];
      assert Concat(chunks[..i + 1]) == received + chunks[i];
    }
    assert chunks[..|chunks|] == chunks;
  }

  /** A stream cut short delivers a prefix of the events, never a different one. */
  lemma CutStreamIsPrefix<J>(a: string, b: string, parse: string -> Option<J>)
    ensures EventsOf(a, parse) <= EventsOf(a + b, parse)
  {
    ChunkStep(a, b);
    DeliverConcat(Complete(a), Complete(Pending(a) + b), parse);
  }

  /** A line that does not begin with the prefix, wherever it comes, delivers nothing. */
  lemma OtherLinesAreIgnored<J>(a: string, line: string, b: string, parse: string -> Option<J>)
    requires Pending(a) == "" && '\n' !in line && !("data:" <= line)
    ensures EventsOf(a + (line + "\n" + b), parse) == EventsOf(a + b, parse)
  {
    hide Trim, Complete, Pending, Split;
    LineInserted(a, line, b, parse);
    assert Handle(line, parse) == [];
    assert EventsOf(a, parse) + [] == EventsOf(a, parse);
  }

  /** A line that does, with or without a space after it, delivers what the rest says. */
  lemma DataLineDelivers<J>(a: string, data: string, b: string, parse: string -> Option<J>)
    requires Pending(a) == "" && '\n' !in data
    ensures EventsOf(a + ("data:" + data + "\n" + b), parse) == EventsOf(a, parse) + Reply(Trim(data), parse) + EventsOf(b, parse)
  {
    hide Trim, Complete, Pending, Split;
    LineInserted(a, "data:" + data, b, parse);
    assert ("data:" + data)[..5] == "data:" && ("data:" + data)[5..] == data;
  }

  lemma LineInserted<J>(a: string, line: string, b: string, parse: string -> Option<J>)
    requires Pending(a) == "" && '\n' !in line
    ensures EventsOf(a + (line + "\n" + b), parse) == EventsOf(a, parse) + Handle(line, parse) + EventsOf(b, parse)
    ensures EventsOf(a + b, parse) == EventsOf(a, parse) + EventsOf(b, parse)
  {
    hide Trim, Complete, Pending, Handle, Deliver;
    ChunkStep(a, line + "\n" + b);
    ChunkStep(a, b);
    assert "" + (line + "\n" + b) == line + "\n" + b && "" + b == b;
    LineFirst(line, b);
    DeliverConcat(Complete(a), [line] + Complete(b), parse);
    DeliverConcat([line], Complete(b), parse);
    DeliverConcat(Complete(a), Complete(b), parse);
    DeliverOneMore([], line, parse);
    DeliverNone(parse);
    assert [] + [line] == [line];
  }

  lemma DeliverNone<J>(parse: string -> Option<J>)
    ensures Deliver([], parse) == []
  {
  }

  lemma LineFirst(line: string, rest: string)
    requires '\n' !in line
    ensures Complete(line + "\n" + rest) == [line] + Complete(rest)
  {
    SplitLine(line, rest);
    var pieces := Split(rest);
    assert ([line] + pieces)[..|pieces|] == [line] + pieces[..|pieces| - 1];
  }

  // --- what the server prints --------------------------------------------------------------

  function Frame(payload: string): string { "data: " + payload + "\n\n" }

  function ServerText(payloads: seq<string>): string {
    if payloads == [] then "data: [DONE]\n\n" else Frame(payloads[0]) + ServerText(payloads[1..])
  }

  /** One line, no outer spaces, and not the end marker: what `json.dumps` of an object gives. */
  predicate OneLine(p: string) { '\n' !in p && Trimmed(p) && p != DONE }

  lemma TrimFront(p: string)
    requires Trimmed(p)
    ensures Trim(" " + p) == p
  {
    assert (" " + p)[1..] == p && IsSpace((" " + p)[0]);
    assert TrimStart(" " + p) == TrimStart(p) == p;
    assert TrimEnd(p) == p;
  }

  function Reply<J>(p: string, parse: string -> Option<J>): seq<Event<J>> {
    if p == DONE then [Done] else match parse(p) case Some(json) => [Data(json)] case None => []
  }

  lemma HandleFrame<J>(p: string, parse: string -> Option<J>)
    requires Trimmed(p)
    ensures Handle("data: " + p, parse) == Reply(p, parse)
  {
    var line := "data: " + p;
    assert line[..5] == PREFIX;
    assert line[5..] == " " + p;
    TrimFront(p);
  }

  lemma DeliverTwo<J>(x: string, y: string, parse: string -> Option<J>)
    ensures Deliver([x, y], parse) == Handle(x, parse) + Handle(y, parse)
  {
    assert [x, y][..1] == [x] && [x][..0] == [];
    assert Deliver([x], parse) == Deliver([x][..0], parse) + Handle(x, parse);
  }

  lemma FrameSplits(p: string, rest: string)
    requires '\n' !in p
    ensures Complete(Frame(p) + rest) == ["data: " + p, ""] + Complete(rest)
  {
    var line := "data: " + p;
    assert Frame(p) + rest == line + "\n" + ("" + "\n" + rest);
    SplitLine(line, "" + "\n" + rest);
    SplitLine("", rest);
    assert [line] + ([""] + Split(rest)) == [line, ""] + Split(rest);
  }

  lemma FrameEvents<J>(p: string, rest: string, parse: string -> Option<J>)
    requires '\n' !in p && Trimmed(p)
    ensures EventsOf(Frame(p) + rest, parse) == Reply(p, parse) + EventsOf(rest, parse)
  {
    hide Split, Trim, Frame, Reply, Complete;
    FrameSplits(p, rest);
    HandleFrame(p, parse);
    DeliverTwo("data: " + p, "", parse);
    DeliverConcat(["data: " + p, ""], Complete(rest), parse);
    assert Reply(p, parse) + [] == Reply(p, parse);
  }

  function Received<J>(values: seq<J>): seq<Event<J>> {
    if values == [] then [Done] else [Data(values[0])] + Received(values[1..])
  }

  function Dumped<J>(values: seq<J>, dumps: J -> string): seq<string> {
    seq(|values|, i requires 0 <= i < |values| => dumps(values[i]))
  }

  /** Every value the server sends arrives, in order and once, followed by one done signal. */
  lemma {:induction false} RoundTrip<J>(values: seq<J>, dumps: J -> string, parse: string -> Option<J>)
    requires forall v :: v in values ==> OneLine(dumps(v)) && parse(dumps(v)) == Some(v)
    ensures EventsOf(ServerText(Dumped(values, dumps)), parse) == Received(values)
  {
    var payloads := Dumped(values, dumps);
    if values == [] {
      assert "data: [DONE]\n\n" == Frame(DONE) + "";
      FrameEvents(DONE, "", parse);
      assert Complete("") == [];
    } else {
      assert values[0] in values;
      forall v | v in values[1..] ensures v in values {}
      RoundTrip(values[1..], dumps, parse);
      assert payloads[1..] == Dumped(values[1..], dumps);
      FrameEvents(payloads[0], ServerText(payloads[1..]), parse);
    }
  }

  // --- event_stream ---------------------------------------------------------------------------

  datatype GraphEvent = ChatStream(content: string) | ToolStart(name: string) | ToolEnd(name: string, output: string) | OtherEvent

  datatype Payload =
    | Token(token: string)
    | ToolStarted(tool: string)
    | ToolEnded(tool: string)
    | Greeting(message: string)
    | Agenda(message: string, agenda: string)

  const AGENDA_TOOL := "get_agenda"

  /** Tokens are forwarded only when they carry text. */
  function Forwarded(e: GraphEvent): seq<Payload> {
    match e
    case ChatStream(content) => if content != "" then [Token(content)] else []
    case ToolStart(name) => [ToolStarted(name)]
    case ToolEnd(name, _) => [ToolEnded(name)]
    case OtherEvent => []
  }

  function TokenText(p: Payload): string { match p case Token(t) => t case _ => "" }

  function Said(payloads: seq<Payload>): string {
    if payloads == [] then "" else Said(payloads[..|payloads| - 1]) + TokenText(payloads[|payloads| - 1])
  }

  function FramesOf(payloads: seq<Payload>, dumps: Payload -> string): string {
    if payloads == [] then "" else FramesOf(payloads[..|payloads| - 1], dumps) + Frame(dumps(payloads[|payloads| - 1]))
  }

  lemma ServerTextFirst(p: string, more: seq<string>)
    ensures ServerText([p] + more) == Frame(p) + ServerText(more)
  {
    assert ([p] + more)[1..] == more;
  }

  lemma {:induction false} FramesAreServerText(payloads: seq<Payload>, more: seq<string>, dumps: Payload -> string)
    ensures FramesOf(payloads, dumps) + ServerText(more) == ServerText(Dumped(payloads, dumps) + more)
  {
    hide Frame, ServerText;
    if payloads == [] {
      assert Dumped(payloads, dumps) + more == more;
      assert FramesOf(payloads, dumps) + ServerText(more) == ServerText(more);
    } else {
      var n := |payloads| - 1;
      var p := dumps(payloads[n]);
      assert FramesOf(payloads, dumps) == FramesOf(payloads[..n], dumps) + Frame(p);
      hide FramesOf;
      FramesAreServerText(payloads[..n], [p] + more, dumps);
      ServerTextFirst(p, more);
      assert Dumped(payloads, dumps) + more == Dumped(payloads[..n], dumps) + ([p] + more);
    }
  }

  /** The last agenda the tools returned that parses, or the empty one. */
  function AgendaOf(results: seq<(string, string)>, items: string -> Option<string>): string {
    if results == [] then ""
    else
      var (name, output) := results[|results| - 1];
      if name == AGENDA_TOOL && output != "" && items(output).Some? then items(output).value
      else AgendaOf(results[..|results| - 1], items)
  }

  /** The loop over the tool results: a later agenda that parses replaces an earlier one. */
  method PickAgenda(results: seq<(string, string)>, items: string -> Option<string>) returns (agenda: string)
    ensures agenda == AgendaOf(results, items)
  {
    agenda := "";
    for i := 0 to |results|
      invariant agenda == AgendaOf(results[..i], items)
    {
      assert results[..i + 1][..i] == results[..i];
      var (name, output) := results[i];
      if name == AGENDA_TOOL && output != "" {
        match items(output)
        case Some(parsed) => agenda := parsed;
        case None =>
      }
    }
    assert results[..|results|] == results;
  }

  lemma NothingSent(dumps: Payload -> string)
    ensures FramesOf([], dumps) == "" && Said([]) == "" && FlatForwarded([]) == [] && EndsOf([]) == []
  {
  }

  lemma FinalStep(sent: seq<Payload>, p: Payload, dumps: Payload -> string)
    ensures FramesOf(sent + [p], dumps) == FramesOf(sent, dumps) + Frame(dumps(p))
    ensures Said(sent + [p]) == Said(sent) + TokenText(p)
    ensures (sent + [p])[..|sent|] == sent
  {
    assert (sent + [p])[..|sent|] == sent;
  }

  lemma ForwardStep(sent: seq<Payload>, e: GraphEvent, dumps: Payload -> string)
    ensures FramesOf(sent + Forwarded(e), dumps)
         == FramesOf(sent, dumps) + if Forwarded(e) == [] then "" else Frame(dumps(Forwarded(e)[0]))
    ensures Said(sent + Forwarded(e)) == Said(sent) + match e case ChatStream(content) => content case _ => ""
  {
    if Forwarded(e) == [] {
      assert sent + Forwarded(e) == sent;
    } else {
      FinalStep(sent, Forwarded(e)[0], dumps);
      assert Forwarded(e) == [Forwarded(e)[0]];
    }
  }

  /** What the tools returned. */
  function EndsOf(graph: seq<GraphEvent>): seq<(string, string)> {
    if graph == [] then []
    else
      var rest := EndsOf(graph[..|graph| - 1]);
      match graph[|graph| - 1] case ToolEnd(name, output) => rest + [(name, output)] case _ => rest
  }

  /** The closing payload repeats the tokens already sent; it is an agenda when that tool was started. */
  function Conclusion(sent: seq<Payload>, results: seq<(string, string)>, items: string -> Option<string>): Payload {
    if ToolStarted(AGENDA_TOOL) in sent then Agenda(Said(sent), AgendaOf(results, items)) else Greeting(Said(sent))
  }

  lemma Closing(sent: seq<Payload>, last: Payload, dumps: Payload -> string)
    ensures FramesOf(sent, dumps) + Frame(dumps(last)) + Frame(DONE) == ServerText(Dumped(sent + [last], dumps))
  {
    NoMoreFrames();
    hide FramesOf, ServerText, Frame, Said;
    FinalStep(sent, last, dumps);
    FramesAreServerText(sent + [last], [], dumps);
    assert Dumped(sent + [last], dumps) + [] == Dumped(sent + [last], dumps);
  }

  lemma NoMoreFrames()
    ensures ServerText([]) == Frame(DONE)
  {
  }

  function FlatForwarded(graph: seq<GraphEvent>): seq<Payload> {
    if graph == [] then [] else FlatForwarded(graph[..|graph| - 1]) + Forwarded(graph[|graph| - 1])
  }

  lemma GraphStep(graph: seq<GraphEvent>, i: nat)
    requires i < |graph|
    ensures FlatForwarded(graph[..i + 1]) == FlatForwarded(graph[..i]) + Forwarded(graph[i])
    ensures EndsOf(graph[..i + 1]) == match graph[i] case ToolEnd(name, output) => EndsOf(graph[..i]) + [(name, output)] case _ => EndsOf(graph[..i])
  {
    assert graph[..i + 1][..i] == graph[..i];
  }

  /** One event of the graph: what it adds to the answer, the tool lists and the printed text. */
  method ForwardOne(
    event: GraphEvent, full: string, outputs: seq<string>, results: seq<(string, string)>, printed: string,
    ghost sent: seq<Payload>, dumps: Payload -> string)
    returns (fullResponse: string, toolOutputs: seq<string>, toolResults: seq<(string, string)>, text: string)
    requires full == Said(sent) && printed == FramesOf(sent, dumps)
    requires AGENDA_TOOL in outputs <==> ToolStarted(AGENDA_TOOL) in sent
    ensures fullResponse == Said(sent + Forwarded(event)) && text == FramesOf(sent + Forwarded(event), dumps)
    ensures AGENDA_TOOL in toolOutputs <==> ToolStarted(AGENDA_TOOL) in sent + Forwarded(event)
    ensures toolResults == match event case ToolEnd(name, output) => results + [(name, output)] case _ => results
  {
    hide FramesOf, Said, Frame;
    fullResponse, toolOutputs, toolResults, text := full, outputs, results, printed;
    ForwardStep(sent, event, dumps);
    match event
    case ChatStream(content) =>
      if content != "" {
        fullResponse := fullResponse + content;
        text := text + Frame(dumps(Token(content)));
      }
    case ToolStart(name) =>
      toolOutputs := toolOutputs + [name];
      text := text + Frame(dumps(ToolStarted(name)));
    case ToolEnd(name, output) =>
      toolResults := toolResults + [(name, output)];
      text := text + Frame(dumps(ToolEnded(name)));
    case OtherEvent =>
  }

  /** How many events are handled before `is_disconnected` first says yes. */
  function Handled(gone: seq<bool>): (n: nat)
    ensures n <= |gone| && (n < |gone| ==> gone[n]) && forall i :: 0 <= i < n ==> !gone[i]
  {
    if gone == [] || gone[0] then 0 else 1 + Handled(gone[1..])
  }

  /** The payloads of an answer: those of the events handled, then the closing one. */
  function Answer(graph: seq<GraphEvent>, gone: seq<bool>, items: string -> Option<string>): seq<Payload>
    requires |gone| == |graph|
  {
    var handled := graph[..Handled(gone)];
    FlatForwarded(handled) + [Conclusion(FlatForwarded(handled), EndsOf(handled), items)]
  }

  /**
    The generator: forwards the graph's events until the client leaves, then
    prints one final answer and the end marker. `gone[i]` is what
    `is_disconnected` says before event `i`.
   */
  method EventStream(graph: seq<GraphEvent>, gone: seq<bool>, items: string -> Option<string>, dumps: Payload -> string)
    returns (text: string)
    requires |gone| == |graph|
    ensures text == ServerText(Dumped(Answer(graph, gone, items), dumps))
  {
    hide FramesOf, Said, Frame, Forwarded, FlatForwarded, EndsOf;
    NothingSent(dumps);
    var fullResponse := "";
    var toolOutputs: seq<string> := [];
    var toolResults: seq<(string, string)> := [];
    text := "";
    ghost var sent: seq<Payload> := [];
    var i := 0;
    while i < |graph| && !gone[i]
      invariant i <= |graph| && forall k :: 0 <= k < i ==> !gone[k]
      invariant sent == FlatForwarded(graph[..i])
      invariant toolResults == EndsOf(graph[..i])
      invariant text == FramesOf(sent, dumps)
      invariant fullResponse == Said(sent)
      invariant AGENDA_TOOL in toolOutputs <==> ToolStarted(AGENDA_TOOL) in sent
      decreases |graph| - i
    {
      GraphStep(graph, i);
      fullResponse, toolOutputs, toolResults, text :=
        ForwardOne(graph[i], fullResponse, toolOutputs, toolResults, text, sent, dumps);
      sent := sent + Forwarded(graph[i]);
      i := i + 1;
    }
    assert i == Handled(gone);
    var result := Greeting(fullResponse);
    if AGENDA_TOOL in toolOutputs {
      var agenda := PickAgenda(toolResults, items);
      result := Agenda(fullResponse, agenda);
    }
    Closing(sent, result, dumps);
    text := text + Frame(dumps(result)) + Frame(DONE);
  }

  // --- what the browser gets ------------------------------------------------------------------

  /** An event that is forwarded: text, or a tool starting or ending. */
  predicate Visible(e: GraphEvent) { e.ToolStart? || e.ToolEnd? || (e.ChatStream? && e.content != "") }

  function VisibleCount(graph: seq<GraphEvent>): nat {
    if graph == [] then 0 else VisibleCount(graph[..|graph| - 1]) + if Visible(graph[|graph| - 1]) then 1 else 0
  }

  predicate Says(e: GraphEvent, p: Payload) {
    match e
    case ChatStream(content) => p == Token(content)
    case ToolStart(name) => p == ToolStarted(name)
    case ToolEnd(name, _) => p == ToolEnded(name)
    case OtherEvent => false
  }

  /** Each visible event arrives at its own place, and says what it says. */
  ghost predicate Relayed(graph: seq<GraphEvent>, events: seq<Event<Payload>>) {
    forall i :: 0 <= i < |graph| && Visible(graph[i]) ==>
      VisibleCount(graph[..i]) < |events|
      && events[VisibleCount(graph[..i])].Data? && Says(graph[i], events[VisibleCount(graph[..i])].json)
  }

  lemma OneForwarded(e: GraphEvent)
    ensures |Forwarded(e)| == if Visible(e) then 1 else 0
    ensures Visible(e) ==> Says(e, Forwarded(e)[0])
  {
  }

  lemma FlatStep(graph: seq<GraphEvent>)
    requires graph != []
    ensures var n := |graph| - 1;
      && FlatForwarded(graph) == FlatForwarded(graph[..n]) + Forwarded(graph[n])
      && VisibleCount(graph) == VisibleCount(graph[..n]) + if Visible(graph[n]) then 1 else 0
  {
    hide Forwarded, Visible;
  }

  lemma {:induction false} ForwardedLength(graph: seq<GraphEvent>)
    ensures |FlatForwarded(graph)| == VisibleCount(graph)
  {
    if graph != [] {
      FlatStep(graph);
      OneForwarded(graph[|graph| - 1]);
      hide FlatForwarded, VisibleCount, Forwarded, Visible;
      ForwardedLength(graph[..|graph| - 1]);
    }
  }

  lemma {:induction false} ForwardedAt(graph: seq<GraphEvent>, i: nat)
    requires i < |graph| && Visible(graph[i])
    ensures VisibleCount(graph[..i]) < |FlatForwarded(graph)|
    ensures Says(graph[i], FlatForwarded(graph)[VisibleCount(graph[..i])])
  {
    hide FlatForwarded, VisibleCount, Forwarded, Visible, Says;
    var n := |graph| - 1;
    FlatStep(graph);
    OneForwarded(graph[n]);
    ForwardedLength(graph[..n]);
    if i < n {
      assert graph[..n][..i] == graph[..i] && graph[..n][i] == graph[i];
      ForwardedAt(graph[..n], i);
    }
  }

  lemma ForwardedIsRelayed(graph: seq<GraphEvent>, last: Payload)
    ensures |FlatForwarded(graph)| == VisibleCount(graph)
    ensures Relayed(graph, Received(FlatForwarded(graph) + [last]))
  {
    hide FlatForwarded, VisibleCount, Received, Visible, Says;
    ForwardedLength(graph);
    ReceivedShape(FlatForwarded(graph) + [last]);
    forall i | 0 <= i < |graph| && Visible(graph[i])
      ensures VisibleCount(graph[..i]) < |FlatForwarded(graph)|
      ensures Says(graph[i], FlatForwarded(graph)[VisibleCount(graph[..i])])
    {
      ForwardedAt(graph, i);
    }
  }

  /** Event `i` ends the agenda tool with an agenda that parses. */
  predicate GivesAgenda(graph: seq<GraphEvent>, i: nat, items: string -> Option<string>) {
    i < |graph| && graph[i].ToolEnd? && graph[i].name == "get_agenda" && graph[i].output != "" && items(graph[i].output).Some?
  }

  predicate GivesAgendaOf(graph: seq<GraphEvent>, i: nat, items: string -> Option<string>, agenda: string) {
    GivesAgenda(graph, i, items) && items(graph[i].output).value == agenda
  }

  ghost predicate NoneGives(graph: seq<GraphEvent>, from: nat, items: string -> Option<string>) {
    forall j :: from <= j < |graph| ==> !GivesAgenda(graph, j, items)
  }

  /** The agenda of the last event that gives one; empty when none does. */
  ghost predicate LastAgenda(graph: seq<GraphEvent>, items: string -> Option<string>, agenda: string) {
    || (agenda == "" && NoneGives(graph, 0, items))
    || exists i :: 0 <= i < |graph| && GivesAgendaOf(graph, i, items, agenda) && NoneGives(graph, i + 1, items)
  }

  lemma AgendaOneMore(results: seq<(string, string)>, name: string, output: string, items: string -> Option<string>)
    ensures AgendaOf(results + [(name, output)], items)
      == if name == AGENDA_TOOL && output != "" && items(output).Some? then items(output).value else AgendaOf(results, items)
  {
    assert (results + [(name, output)])[..|results|] == results;
  }

  lemma AgendaStep(graph: seq<GraphEvent>, items: string -> Option<string>)
    requires graph != []
    ensures var n := |graph| - 1;
      AgendaOf(EndsOf(graph), items)
        == if GivesAgenda(graph, n, items) then items(graph[n].output).value else AgendaOf(EndsOf(graph[..n]), items)
  {
    var n := |graph| - 1;
    assert graph[..n + 1] == graph;
    GraphStep(graph, n);
    hide AgendaOf, EndsOf, FlatForwarded, Forwarded;
    if graph[n].ToolEnd? {
      AgendaOneMore(EndsOf(graph[..n]), graph[n].name, graph[n].output, items);
    }
  }

  lemma GivesBefore(graph: seq<GraphEvent>, i: nat, items: string -> Option<string>)
    requires i + 1 < |graph|
    ensures GivesAgenda(graph, i, items) == GivesAgenda(graph[..|graph| - 1], i, items) && graph[i] == graph[..|graph| - 1][i]
  {
  }

  lemma GivesStep(graph: seq<GraphEvent>, n: nat, items: string -> Option<string>, from: nat)
    requires n + 1 == |graph| && !GivesAgenda(graph, n, items) && NoneGives(graph[..n], from, items)
    ensures NoneGives(graph, from, items)
  {
    forall i | from <= i < n ensures !GivesAgenda(graph, i, items) {
      GivesBefore(graph, i, items);
    }
    hide GivesAgenda;
  }

  /** Where the last agenda comes from. */
  lemma {:induction false} AgendaFrom(graph: seq<GraphEvent>, items: string -> Option<string>) returns (at: Option<nat>)
    ensures at == None ==> AgendaOf(EndsOf(graph), items) == "" && NoneGives(graph, 0, items)
    ensures at.Some? ==> at.value < |graph|
    ensures at.Some? ==> GivesAgendaOf(graph, at.value, items, AgendaOf(EndsOf(graph), items)) && NoneGives(graph, at.value + 1, items)
  {
    if graph == [] {
      at := None;
    } else {
      var n := |graph| - 1;
      at := AgendaFrom(graph[..n], items);
      AgendaStep(graph, items);
      hide AgendaOf, EndsOf;
      if GivesAgenda(graph, n, items) {
        at := Some(n);
      } else if at == None {
        GivesStep(graph, n, items, 0);
      } else {
        GivesBefore(graph, at.value, items);
        GivesStep(graph, n, items, at.value + 1);
        hide GivesAgenda, NoneGives;
      }
    }
  }

  lemma AgendaIsLast(graph: seq<GraphEvent>, items: string -> Option<string>)
    ensures LastAgenda(graph, items, AgendaOf(EndsOf(graph), items))
  {
    var at := AgendaFrom(graph, items);
    hide AgendaOf, EndsOf, NoneGives, GivesAgendaOf;
  }

  lemma {:induction false} StartedIsSent(graph: seq<GraphEvent>, tool: string)
    ensures ToolStarted(tool) in FlatForwarded(graph) <==> ToolStart(tool) in graph
  {
    if graph != [] {
      var n := |graph| - 1;
      StartedIsSent(graph[..n], tool);
      assert graph == graph[..n] + [graph[n]];
    }
  }

  /** The closing answer: an agenda exactly when that tool was started, and then the last one given. */
  ghost predicate Closes(last: Payload, graph: seq<GraphEvent>, items: string -> Option<string>) {
    match last
    case Agenda(_, agenda) => ToolStart("get_agenda") in graph && LastAgenda(graph, items, agenda)
    case Greeting(_) => ToolStart("get_agenda") !in graph
    case _ => false
  }

  lemma ConclusionCloses(graph: seq<GraphEvent>, items: string -> Option<string>)
    ensures Closes(Conclusion(FlatForwarded(graph), EndsOf(graph), items), graph, items)
  {
    hide LastAgenda, AgendaOf, EndsOf, FlatForwarded, Said;
    AgendaIsLast(graph, items);
    StartedIsSent(graph, "get_agenda");
  }

  /**
    End to end: whatever the chunks, the browser gets one event for each visible
    one handled, in order, then the closing answer and one done signal. The
    answer is an agenda exactly when that tool was started, with the last agenda
    that parses, and its message is what the tokens shown spell.
   */
  method ShowAnswer(
    graph: seq<GraphEvent>, gone: seq<bool>, items: string -> Option<string>,
    dumps: Payload -> string, parse: string -> Option<Payload>, cut: string -> seq<string>)
    returns (events: seq<Event<Payload>>)
    requires |gone| == |graph|
    requires forall v :: OneLine(dumps(v)) && parse(dumps(v)) == Some(v)
    requires forall text :: Concat(cut(text)) == text
    ensures |events| == VisibleCount(graph[..Handled(gone)]) + 2 && Relayed(graph[..Handled(gone)], events)
    ensures events[|events| - 1] == Done && forall i :: 0 <= i < |events| - 1 ==> events[i].Data?
    ensures Closes(events[|events| - 2].json, graph[..Handled(gone)], items)
    ensures match events[|events| - 2].json
      case Greeting(message) => message == Shown(events)
      case Agenda(message, _) => message == Shown(events)
      case _ => false
  {
    hide Handled, Relayed, Closes, VisibleCount, AgendaOf;
    var text := EventStream(graph, gone, items, dumps);
    events := StreamNoraMessage(cut(text), parse);
    ghost var handled := graph[..Handled(gone)];
    ghost var sent := FlatForwarded(handled);
    ghost var last := Conclusion(sent, EndsOf(handled), items);
    RoundTrip(sent + [last], dumps, parse);
    ReceivedShape(sent + [last]);
    ForwardedIsRelayed(handled, last);
    ConclusionCloses(handled, items);
    ShownIsSaid(sent + [last]);
    FinalStep(sent, last, dumps);
  }

  function EventText(e: Event<Payload>): string { match e case Data(p) => TokenText(p) case _ => "" }

  /** The tokens as the browser shows them. */
  function Shown(events: seq<Event<Payload>>): string {
    if events == [] then "" else Shown(events[..|events| - 1]) + EventText(events[|events| - 1])
  }

  lemma ShownOneMore(events: seq<Event<Payload>>, e: Event<Payload>)
    ensures Shown(events + [e]) == Shown(events) + EventText(e)
  {
    assert (events + [e])[..|events|] == events;
  }

  lemma SaidOneMore(payloads: seq<Payload>, p: Payload)
    ensures Said(payloads + [p]) == Said(payloads) + TokenText(p)
  {
    assert (payloads + [p])[..|payloads|] == payloads;
  }

  lemma {:induction false} ShownPrepend(p: Payload, events: seq<Event<Payload>>)
    ensures Shown([Data(p)] + events) == TokenText(p) + Shown(events)
  {
    hide TokenText;
    if events == [] {
      ShownOneMore([], Data(p));
      assert [Data(p)] + events == [] + [Data(p)];
    } else {
      hide Shown;
      var n := |events| - 1;
      ShownPrepend(p, events[..n]);
      ShownOneMore([Data(p)] + events[..n], events[n]);
      ShownOneMore(events[..n], events[n]);
      assert [Data(p)] + events == ([Data(p)] + events[..n]) + [events[n]] && events == events[..n] + [events[n]];
    }
  }

  lemma {:induction false} SaidPrepend(p: Payload, payloads: seq<Payload>)
    ensures Said([p] + payloads) == TokenText(p) + Said(payloads)
  {
    hide TokenText;
    if payloads == [] {
      SaidOneMore([], p);
      assert [p] + payloads == [] + [p];
    } else {
      hide Said;
      var n := |payloads| - 1;
      SaidPrepend(p, payloads[..n]);
      SaidOneMore([p] + payloads[..n], payloads[n]);
      SaidOneMore(payloads[..n], payloads[n]);
      assert [p] + payloads == ([p] + payloads[..n]) + [payloads[n]] && payloads == payloads[..n] + [payloads[n]];
    }
  }

  lemma {:induction false} ReceivedShape(values: seq<Payload>)
    ensures |Received(values)| == |values| + 1 && Received(values)[|values|] == Done
    ensures forall i :: 0 <= i < |values| ==> Received(values)[i] == Data(values[i])
  {
    if values != [] {
      ReceivedShape(values[1..]);
    }
  }

  /** What the browser shows of the payloads received is what the server said. */
  lemma {:induction false} ShownIsSaid(values: seq<Payload>)
    ensures Shown(Received(values)) == Said(values)
  {
    if values == [] {
      var done: seq<Event<Payload>> := [Done];
      assert done[..0] == [];
    } else {
      hide Shown, Said, TokenText;
      ShownIsSaid(values[1..]);
      ShownPrepend(values[0], Received(values[1..]));
      SaidPrepend(values[0], values[1..]);
      assert values == [values[0]] + values[1..];
    }
  }
}
