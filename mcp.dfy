/** internal/mcp/server.go: the MCP server's JSON-RPC 2.0 dispatch. Messages
    arrive already decoded; what `encoding/json` makes of a `params` payload
    is the `Codec` parameter, and the registry loader is the outcome its
    `Load` returns on every call. Error codes are those of section 5.1 of the
    JSON-RPC 2.0 specification. */
module Mcp {
  import opened Wrappers
  import opened Text
  import opened Parser
  import opened Registry
  import opened Output
  import opened App

  const JsonRpcVersion := "2.0"

  const ParseErrorCode := -32700
  const InvalidRequestCode := -32600
  const MethodNotFoundCode := -32601
  const InvalidParamsCode := -32602
  const InternalErrorCode := -32603

  const ToolListPlaybooks := "list_playbooks"
  const ToolGetPlaybook := "get_playbook"

  // ---------------------------------------------------------------- messages

  /** `rawMessage`: `id` and `params` are the raw JSON bytes, empty when absent. */
  datatype Message = Message(jsonrpc: string, id: string, methodName: string, params: string)

  /** One value read by the decoder: a message, or the error that ends `Serve`.
      The end of the input (EOF) is the end of the sequence. */
  datatype Incoming = Msg(msg: Message) | Undecodable(err: string)

  /** `rawMessage.HasID`. */
  predicate HasId(m: Message) {
    |m.id| > 0
  }

  /** A JSON argument value: only whether it is a string matters. */
  datatype Value = Str(s: string) | NonString

  /** `toolsCallParams`: `arguments` is `None` for a missing or null object. */
  datatype ToolsCall = ToolsCall(name: string, arguments: Option<map<string, Value>>)

  /** What `json.Unmarshal` makes of a payload: into `initializeParams`, into
      `struct{}` (an error text, if any), and into `toolsCallParams`. */
  datatype Codec = Codec(
    initializeError: string -> Option<string>,
    objectError: string -> Option<string>,
    toolsCall: string -> Result<ToolsCall>)

  datatype Metadata = Metadata(name: string, description: string, source: string)

  /** The `result` members the server sends. */
  datatype Payload =
    | Empty
    | Initialized(protocolVersion: string, serverName: string, serverVersion: string,
                  listChanged: bool, instructions: string)
    | Tools(names: seq<string>)
    | ToolText(text: string, metadata: Option<Metadata>)

  datatype Body = Result(payload: Payload) | Error(code: int, message: string, data: Option<string>)

  /** `response`: every response carries the request's id. */
  datatype Response = Response(id: string, body: Body)

  /** The fixed inputs of a server: `protocolVersion` is
      `mcp.LATEST_PROTOCOL_VERSION`, `instructions` is
      `instructions.MCPUsageInstructions()`, `loaded` is what `loader.Load`
      returns. */
  datatype Setup = Setup(codec: Codec, loaded: Result<Registry>, version: string,
                         protocolVersion: string, instructions: string)

  // ---------------------------------------------------------------- oneLine

  /** `oneLine`: the words of `text` joined by single spaces, or
      "(no description)". It trims first, which changes nothing. */
  function OneLine(text: string): (r: string)
    ensures r == OneLineDescription(text)
  {
    var trimmed := TrimSpace(text);
    TrimSpaceEmptyIffBlank(text);
    FieldsEmptyIffBlank(text);
    FieldsOfTrimSpace(text);
    if trimmed == "" then "(no description)"
    else Join(Fields(trimmed), " ")
  }

  // ---------------------------------------------------------------- list_playbooks

  const EmDash := "\U{2014}"

  /** What comes before the description on an entry line. */
  function EntryPrefix(name: string): string {
    "- " + name + " " + EmDash + " "
  }

  /** One line of the `list_playbooks` text: "- name — description". */
  function EntryLine(d: Document): string {
    EntryText(d.name, OneLine(d.description))
  }

  /** The entry line for a name and a description already on one line. */
  function EntryText(name: string, description: string): string {
    EntryPrefix(name) + description + "\n"
  }

  function Entries(docs: seq<Document>): string
    decreases |docs|
  {
    if docs == [] then "" else Entries(docs[..|docs| - 1]) + EntryLine(docs[|docs| - 1])
  }

  const ListHeader := "Available playbooks:\n"

  /** What the builder holds for `docs`. */
  function Listing(docs: seq<Document>): string {
    if docs == [] then NoPlaybooks else ListHeader + Entries(docs)
  }

  /** The `list_playbooks` text. */
  function ListText(docs: seq<Document>): string {
    TrimRightNewlines(Listing(docs))
  }

  lemma TrimOneNewline(x: string)
    requires x != [] && x[|x| - 1] != '\n'
    ensures TrimRightNewlines(x + "\n") == x
  {
    var s := x + "\n";
    var r := TrimRightNewlines(s);
    assert s[|x|] == '\n';
    assert s[|x| - 1] == x[|x| - 1];
    assert |r| == |x|;
    assert r == s[..|x|] == x;
  }

  /** `s` ends in exactly one newline. */
  predicate EndsInOneNewline(s: string) {
    |s| >= 2 && s[|s| - 1] == '\n' && s[|s| - 2] != '\n'
  }

  /** Text before a line that ends in one newline does not change that. */
  lemma EndsOfConcat(a: string, b: string)
    requires EndsInOneNewline(b)
    ensures EndsInOneNewline(a + b)
  {
    assert (a + b)[|a + b| - 1] == b[|b| - 1] && (a + b)[|a + b| - 2] == b[|b| - 2];
  }

  /** A one-line description does not end in a newline. */
  lemma OneLineEnd(text: string)
    ensures var o := OneLine(text); o != [] && o[|o| - 1] != '\n'
  {
    OneLineDescriptionShape(text);
  }

  /** An entry line ends in one newline, whatever the name, when the
      description does not end in one. */
  lemma EntryTextShape(name: string, o: string)
    requires o != [] && o[|o| - 1] != '\n'
    ensures EndsInOneNewline(EntryText(name, o))
  {
    var l := EntryText(name, o);
    assert l[|l| - 2] == o[|o| - 1];
  }

  lemma EntryLineShape(d: Document)
    ensures EndsInOneNewline(EntryLine(d))
  {
    OneLineEnd(d.description);
    EntryTextShape(d.name, OneLine(d.description));
  }

  lemma EntriesEnd(docs: seq<Document>)
    requires docs != []
    ensures EndsInOneNewline(Entries(docs))
  {
    EntryLineShape(docs[|docs| - 1]);
    EndsOfConcat(Entries(docs[..|docs| - 1]), EntryLine(docs[|docs| - 1]));
  }

  /** Removing the trailing newlines of `h + e` removes exactly the one
      that ends `e`. */
  lemma TrimLastNewline(h: string, e: string)
    requires EndsInOneNewline(e)
    ensures TrimRightNewlines(h + e) + "\n" == h + e
  {
    var s := h + e;
    var r := TrimRightNewlines(s);
    assert s[|s| - 1] == '\n' && s[|s| - 2] != '\n';
    assert |r| == |s| - 1;
    assert s == r + "\n";
  }

  lemma NoPlaybooksEnd()
    ensures NoPlaybooks[|NoPlaybooks| - 1] == '.'
  {
  }

  /** The text is the placeholder for no documents; otherwise the header
      and one line per document, with only the final newline removed. */
  lemma ListTextShape(docs: seq<Document>)
    ensures docs == [] ==> ListText(docs) == NoPlaybooks
    ensures docs != [] ==> ListText(docs) + "\n" == ListHeader + Entries(docs)
  {
    if docs == [] {
      NoPlaybooksEnd();
    } else {
      EntriesEnd(docs);
      TrimLastNewline(ListHeader, Entries(docs));
    }
  }

  lemma EntriesStep(docs: seq<Document>, i: nat)
    requires i < |docs|
    ensures Entries(docs[..i + 1]) == Entries(docs[..i]) + EntryLine(docs[i])
  {
    assert docs[..i + 1][..i] == docs[..i];
    assert docs[..i + 1][i] == docs[i];
  }

  /** The builder loop of `executeListPlaybooks`: one `fmt.Sprintf` line per
      document. */
  method BuildListText(docs: seq<Document>) returns (text: string)
    ensures text == ListText(docs)
  {
    var builder := "";
    if |docs| == 0 {
      builder := builder + NoPlaybooks;
    } else {
      builder := builder + ListHeader;
      for i := 0 to |docs|
        invariant builder == ListHeader + Entries(docs[..i])
      {
        var line := EntryLine(docs[i]);
        EntriesStep(docs, i);
        AppendAssoc(ListHeader, Entries(docs[..i]), line);
        builder := builder + line;
      }
      assert docs[..|docs|] == docs;
    }
    text := TrimRightNewlines(builder);
  }

  // ---------------------------------------------------------------- the replies

  const LoadFailed := "failed to load playbook registry"

  /** `executeListPlaybooks`. */
  ghost function ListReply(loaded: Result<Registry>): (b: Body)
    ensures loaded.Failure? ==> b == Error(InternalErrorCode, LoadFailed, None)
    ensures loaded.Success? ==> b == Result(ToolText(ListText(AllDocuments(loaded.value)), None))
  {
    match loaded
    case Failure(_) => Error(InternalErrorCode, LoadFailed, None)
    case Success(reg) => Result(ToolText(ListText(AllDocuments(reg)), None))
  }

  /** The text `get_playbook` returns for a document's content. */
  function PlaybookText(content: string): (text: string)
    ensures IsBlank(content) ==> text == "(empty playbook)"
    ensures !IsBlank(content) ==> text == content
  {
    TrimSpaceEmptyIffBlank(content);
    if TrimSpace(content) == "" then "(empty playbook)" else content
  }

  /** `executeGetPlaybook` for an already trimmed name. */
  function GetReply(loaded: Result<Registry>, name: string): (b: Body)
    ensures name == "" ==> b == Error(InvalidParamsCode, "name cannot be empty", None)
    ensures name != "" && loaded.Failure? ==> b == Error(InternalErrorCode, LoadFailed, None)
    ensures name != "" && loaded.Success? && name !in loaded.value ==>
      b == Error(InvalidParamsCode, "unknown playbook " + Quote(name), None)
    ensures name != "" && loaded.Success? && name in loaded.value ==>
      var d := loaded.value[name];
      b == Result(ToolText(PlaybookText(d.content), Some(Metadata(d.name, d.description, SourceString(d.source)))))
  {
    if name == "" then Error(InvalidParamsCode, "name cannot be empty", None)
    else
      match loaded
      case Failure(_) => Error(InternalErrorCode, LoadFailed, None)
      case Success(reg) =>
        match Get(reg, name)
        case None => Error(InvalidParamsCode, "unknown playbook " + Quote(name), None)
        case Some(d) =>
          Result(ToolText(PlaybookText(d.content), Some(Metadata(d.name, d.description, SourceString(d.source)))))
  }

  /** `handleToolsCall`. */
  ghost function CallReply(setup: Setup, params: string): Body {
    match setup.codec.toolsCall(params)
    case Failure(e) => Error(InvalidParamsCode, "invalid tools/call params", Some(e))
    case Success(call) =>
      var arguments := call.arguments.GetOr(map[]);
      if call.name == ToolListPlaybooks then
        if |arguments| != 0 then Error(InvalidParamsCode, "list_playbooks does not accept arguments", None)
        else ListReply(setup.loaded)
      else if call.name == ToolGetPlaybook then
        if "name" !in arguments then Error(InvalidParamsCode, "get_playbook requires a name argument", None)
        else if !arguments["name"].Str? then Error(InvalidParamsCode, "name must be a string", None)
        else GetReply(setup.loaded, TrimSpace(arguments["name"].s))
      else Error(InvalidParamsCode, "unknown tool " + Quote(call.name), None)
  }

  /** `handleInitialize`: absent params are accepted; params that do not
      decode get -32602 with the decoder's message; otherwise the server's
      information is sent. */
  function InitializeReply(setup: Setup, params: string): (b: Body)
    ensures b.Error? <==> |params| > 0 && setup.codec.initializeError(params).Some?
    ensures b.Error? ==> b == Error(-32602, "invalid initialize params", setup.codec.initializeError(params))
    ensures b.Result? ==> b.payload == Initialized(setup.protocolVersion, "howto-mcp",
                                                  setup.version, true, setup.instructions)
  {
    if |params| > 0 && setup.codec.initializeError(params).Some? then
      Error(InvalidParamsCode, "invalid initialize params", setup.codec.initializeError(params))
    else
      Result(Initialized(setup.protocolVersion, "howto-mcp", setup.version, true, setup.instructions))
  }

  /** `handleToolsList`: the two tools, whose schemas are not modelled.
      Absent params and "{}" are accepted without decoding. */
  function ToolsListReply(setup: Setup, params: string): (b: Body)
    ensures b.Error? <==> |params| > 0 && params != "{}" && setup.codec.objectError(params).Some?
    ensures b.Error? ==> b == Error(-32602, "tools/list expects an object", None)
    ensures b.Result? ==> b.payload == Tools(["list_playbooks", "get_playbook"])
  {
    if |params| > 0 && params != "{}" && setup.codec.objectError(params).Some? then
      Error(InvalidParamsCode, "tools/list expects an object", None)
    else Result(Tools([ToolListPlaybooks, ToolGetPlaybook]))
  }

  /** `handleRequest`: the reply to a valid request. */
  ghost function Reply(setup: Setup, m: Message): Body {
    if m.methodName == "initialize" then InitializeReply(setup, m.params)
    else if m.methodName == "ping" || m.methodName == "shutdown" then Result(Empty)
    else if m.methodName == "tools/list" then ToolsListReply(setup, m.params)
    else if m.methodName == "tools/call" then CallReply(setup, m.params)
    else Error(MethodNotFoundCode, "unknown method " + Quote(m.methodName), None)
  }

  // ---------------------------------------------------------------- the loop

  /** What one decoded message does: the responses it sends, whether `Serve`
      returns, and the new `shuttingDown`. */
  datatype StepOutcome = StepOutcome(responses: seq<Response>, stop: bool, shuttingDown: bool)

  ghost function Step(setup: Setup, m: Message, shuttingDown: bool): StepOutcome {
    if m.jsonrpc != JsonRpcVersion then
      StepOutcome(if HasId(m) then [Response(m.id, Error(InvalidRequestCode, "unsupported JSON-RPC version", None))] else [],
                  false, shuttingDown)
    else if m.methodName == "" then
      StepOutcome(if HasId(m) then [Response(m.id, Error(InvalidRequestCode, "missing method", None))] else [],
                  false, shuttingDown)
    else if !HasId(m) then
      StepOutcome([], m.methodName == "exit", shuttingDown)
    else
      StepOutcome([Response(m.id, Reply(setup, m))], false, shuttingDown || m.methodName == "shutdown")
  }

  /** What `Serve` does with the rest of the input. */
  datatype Outcome = Outcome(responses: seq<Response>, err: Option<string>, shuttingDown: bool)

  ghost function Run(setup: Setup, input: seq<Incoming>, shuttingDown: bool): Outcome
    decreases |input|
  {
    if input == [] then Outcome([], None, shuttingDown)
    else
      match input[0]
      case Undecodable(e) => Outcome([], Some("failed to decode request: " + e), shuttingDown)
      case Msg(m) =>
        var step := Step(setup, m, shuttingDown);
        if step.stop then Outcome(step.responses, None, step.shuttingDown)
        else
          var rest := Run(setup, input[1..], step.shuttingDown);
          Outcome(step.responses + rest.responses, rest.err, rest.shuttingDown)
  }

  /** `o` preceded by the responses `r`. */
  function Prepend(r: seq<Response>, o: Outcome): Outcome {
    Outcome(r + o.responses, o.err, o.shuttingDown)
  }

  lemma PrependPrepend(a: seq<Response>, b: seq<Response>, o: Outcome)
    ensures Prepend(a, Prepend(b, o)) == Prepend(a + b, o)
    ensures Prepend(a, Outcome(b, o.err, o.shuttingDown)) == Outcome(a + b, o.err, o.shuttingDown)
  {
    AppendAssoc(a, b, o.responses);
  }

  /** `Run` on the input from position `i`, unfolded once. */
  lemma RunAt(setup: Setup, input: seq<Incoming>, i: nat, shuttingDown: bool)
    requires i < |input|
    ensures input[i].Undecodable? ==>
      Run(setup, input[i..], shuttingDown) == Outcome([], Some("failed to decode request: " + input[i].err), shuttingDown)
    ensures input[i].Msg? ==>
      var step := Step(setup, input[i].msg, shuttingDown);
      var rest := Run(setup, input[i + 1..], step.shuttingDown);
      Run(setup, input[i..], shuttingDown) ==
        if step.stop then Outcome(step.responses, None, step.shuttingDown)
        else Outcome(step.responses + rest.responses, rest.err, rest.shuttingDown)
  {
    assert input[i..][0] == input[i] && input[i..][1..] == input[i + 1..];
  }

  /** The server: `sent` is every response handed to the encoder, in order. */
  class Server {
    const setup: Setup
    var shuttingDown: bool
    var sent: seq<Response>

    /** `NewServer`. */
    constructor (setup: Setup)
      ensures this.setup == setup && !shuttingDown && sent == []
    {
      this.setup := setup;
      shuttingDown := false;
      sent := [];
    }

    /** `sendResult` and `sendError`: the encoder never fails here. */
    method Send(id: string, body: Body)
      modifies this
      ensures sent == old(sent) + [Response(id, body)] && shuttingDown == old(shuttingDown)
    {
      sent := sent + [Response(id, body)];
    }

    /** `Serve`: reads until the end of the input, an undecodable value or
        an "exit" notification. */
    method Serve(input: seq<Incoming>) returns (err: Option<string>)
      modifies this
      ensures var o := Run(setup, input, old(shuttingDown));
        sent == old(sent) + o.responses && err == o.err && shuttingDown == o.shuttingDown
    {
      ghost var sent0 := sent;
      ghost var total := Run(setup, input, shuttingDown);
      ghost var done: seq<Response> := [];
      assert input[0..] == input;
      var i := 0;
      while i < |input|
        invariant i <= |input| && sent == sent0 + done
        invariant total == Prepend(done, Run(setup, input[i..], shuttingDown))
        decreases |input| - i
      {
        ghost var before := done;
        var halt, e;
        ghost var r;
        halt, e, r := ServeAt(input, i);
        AppendAssoc(sent0, before, r);
        PrependPrepend(before, r, Run(setup, input[i + 1..], shuttingDown));
        done := done + r;
        if halt {
          assert total == Outcome(done, e, shuttingDown);
          return e;
        }
        i := i + 1;
      }
      assert input[i..] == [];
      return None;
    }

    /** One turn of `Serve`'s loop: `r` is what it sends, `halt` whether
        `Serve` returns, with `err`. */
    method ServeAt(input: seq<Incoming>, i: nat) returns (halt: bool, err: Option<string>, ghost r: seq<Response>)
      requires i < |input|
      modifies this
      ensures sent == old(sent) + r
      ensures var o := Run(setup, input[i..], old(shuttingDown));
        var rest := Run(setup, input[i + 1..], shuttingDown);
        if halt then o == Outcome(r, err, shuttingDown) else o == Prepend(r, rest)
    {
      RunAt(setup, input, i, shuttingDown);
      match input[i]
      case Undecodable(e) =>
        return true, Some("failed to decode request: " + e), [];
      case Msg(m) =>
        r := Step(setup, m, shuttingDown).responses;
        halt := ServeOne(m);
        err := None;
    }

    /** The body of `Serve`'s loop for one decoded message. */
    method ServeOne(m: Message) returns (stop: bool)
      modifies this
      ensures var step := Step(setup, m, old(shuttingDown));
        sent == old(sent) + step.responses && shuttingDown == step.shuttingDown && stop == step.stop
    {
      if m.jsonrpc != JsonRpcVersion {
        if |m.id| > 0 {
          Send(m.id, Error(InvalidRequestCode, "unsupported JSON-RPC version", None));
        }
        return false;
      }
      if m.methodName == "" {
        if |m.id| > 0 {
          Send(m.id, Error(InvalidRequestCode, "missing method", None));
        }
        return false;
      }
      if |m.id| == 0 {
        stop := HandleNotification(m);
        return stop;
      }
      HandleRequest(m);
      return false;
    }

    /** `handleNotification`: only "exit" stops, with or without a shutdown
        request before it. */
    method HandleNotification(m: Message) returns (stop: bool)
      ensures stop <==> m.methodName == "exit"
    {
      if m.methodName == "initialized" {
        return false;
      } else if m.methodName == "exit" {
        if shuttingDown {
          return true;
        }
        return true;
      }
      return false;
    }

    /** `handleRequest`. */
    method HandleRequest(m: Message)
      modifies this
      ensures sent == old(sent) + [Response(m.id, Reply(setup, m))]
      ensures shuttingDown == (old(shuttingDown) || m.methodName == "shutdown")
    {
      if m.methodName == "initialize" {
        var body := InitializeReply(setup, m.params);
        Send(m.id, body);
      } else if m.methodName == "ping" {
        Send(m.id, Result(Empty));
      } else if m.methodName == "shutdown" {
        shuttingDown := true;
        Send(m.id, Result(Empty));
      } else if m.methodName == "tools/list" {
        var body := ToolsListReply(setup, m.params);
        Send(m.id, body);
      } else if m.methodName == "tools/call" {
        HandleToolsCall(m);
      } else {
        Send(m.id, Error(MethodNotFoundCode, "unknown method " + Quote(m.methodName), None));
      }
    }

    /** `handleToolsCall`: the argument checks, then the tool. */
    method HandleToolsCall(m: Message)
      modifies this
      ensures sent == old(sent) + [Response(m.id, CallReply(setup, m.params))]
      ensures shuttingDown == old(shuttingDown)
    {
      var params := setup.codec.toolsCall(m.params);
      if params.Failure? {
        Send(m.id, Error(InvalidParamsCode, "invalid tools/call params", Some(params.error)));
        return;
      }
      var arguments := params.value.arguments.GetOr(map[]);
      if params.value.name == ToolListPlaybooks {
        if |arguments| != 0 {
          Send(m.id, Error(InvalidParamsCode, "list_playbooks does not accept arguments", None));
          return;
        }
        ExecuteListPlaybooks(m.id);
      } else if params.value.name == ToolGetPlaybook {
        if "name" !in arguments {
          Send(m.id, Error(InvalidParamsCode, "get_playbook requires a name argument", None));
          return;
        }
        var rawName := arguments["name"];
        if !rawName.Str? {
          Send(m.id, Error(InvalidParamsCode, "name must be a string", None));
          return;
        }
        ExecuteGetPlaybook(m.id, TrimSpace(rawName.s));
      } else {
        Send(m.id, Error(InvalidParamsCode, "unknown tool " + Quote(params.value.name), None));
      }
    }

    /** `executeListPlaybooks`. */
    method ExecuteListPlaybooks(id: string)
      modifies this
      ensures sent == old(sent) + [Response(id, ListReply(setup.loaded))]
      ensures shuttingDown == old(shuttingDown)
    {
      var reg := setup.loaded;
      if reg.Failure? {
        Send(id, Error(InternalErrorCode, LoadFailed, None));
        return;
      }
      var docs := DocumentsToList(reg.value);
      var text := BuildListText(docs);
      Send(id, Result(ToolText(text, None)));
    }

    /** `executeGetPlaybook`: an empty name is refused before the registry
        is loaded. */
    method ExecuteGetPlaybook(id: string, name: string)
      modifies this
      ensures sent == old(sent) + [Response(id, GetReply(setup.loaded, name))]
      ensures shuttingDown == old(shuttingDown)
    {
      if name == "" {
        Send(id, Error(InvalidParamsCode, "name cannot be empty", None));
        return;
      }
      var reg := setup.loaded;
      if reg.Failure? {
        Send(id, Error(InternalErrorCode, LoadFailed, None));
        return;
      }
      var doc := Get(reg.value, name);
      if doc.None? {
        Send(id, Error(InvalidParamsCode, "unknown playbook " + Quote(name), None));
        return;
      }
      var text := doc.value.content;
      if TrimSpace(text) == "" {
        text := "(empty playbook)";
      }
      TrimSpaceEmptyIffBlank(doc.value.content);
      var d := doc.value;
      Send(id, Result(ToolText(text, Some(Metadata(d.name, d.description, SourceString(d.source))))));
    }
  }

  // ---------------------------------------------------------------- properties of the dispatch

  /** `handleRequest` sends only three of the request-level codes of section
      5.1 of the JSON-RPC 2.0 specification; the fourth, -32600, comes from
      `Step`. */
  lemma ReplyCodes(setup: Setup, m: Message)
    ensures Reply(setup, m).Error? ==>
      Reply(setup, m).code in {InvalidParamsCode, InternalErrorCode, MethodNotFoundCode}
    ensures Reply(setup, m).Error? && Reply(setup, m).code == MethodNotFoundCode <==>
      m.methodName !in {"initialize", "ping", "shutdown", "tools/list", "tools/call"}
  {
  }

  /** `tools/call` faults: each bad argument gets -32602, a registry that
      fails to load gets -32603, and a name missing from a loaded registry
      gets -32602. */
  lemma CallFaults(setup: Setup, params: string)
    ensures var b := CallReply(setup, params);
      match setup.codec.toolsCall(params)
      case Failure(_) => b.Error? && b.code == InvalidParamsCode
      case Success(call) =>
        var args := call.arguments.GetOr(map[]);
        (call.name != ToolListPlaybooks && call.name != ToolGetPlaybook ==>
          b.Error? && b.code == InvalidParamsCode) &&
        (call.name == ToolListPlaybooks && |args| != 0 ==>
          b.Error? && b.code == InvalidParamsCode) &&
        (call.name == ToolListPlaybooks && |args| == 0 ==>
          (b.Error? <==> setup.loaded.Failure?) && (b.Error? ==> b.code == InternalErrorCode)) &&
        (call.name == ToolGetPlaybook && ("name" !in args || !args["name"].Str?) ==>
          b.Error? && b.code == InvalidParamsCode) &&
        (call.name == ToolGetPlaybook && "name" in args && args["name"].Str? ==>
          var name := TrimSpace(args["name"].s);
          (IsBlank(args["name"].s) ==> b == Error(InvalidParamsCode, "name cannot be empty", None)) &&
          (!IsBlank(args["name"].s) && setup.loaded.Failure? ==> b.Error? && b.code == InternalErrorCode) &&
          (!IsBlank(args["name"].s) && setup.loaded.Success? ==>
            (b.Error? <==> name !in setup.loaded.value) && (b.Error? ==> b.code == InvalidParamsCode)))
  {
    match setup.codec.toolsCall(params)
    case Failure(_) =>
    case Success(call) =>
      var args := call.arguments.GetOr(map[]);
      if call.name == ToolGetPlaybook && "name" in args && args["name"].Str? {
        TrimSpaceEmptyIffBlank(args["name"].s);
      }
  }

  /** Every error a tool call produces uses -32602 or -32603. */
  lemma CallReplyCodes(setup: Setup, params: string)
    ensures CallReply(setup, params).Error? ==>
      CallReply(setup, params).code == InvalidParamsCode || CallReply(setup, params).code == InternalErrorCode
  {
  }

  /** A message is answered once, with its own id, exactly when it has an
      id; only a valid "exit" notification ends the loop, and only a
      "shutdown" request sets the flag. */
  lemma StepResponses(setup: Setup, m: Message, shuttingDown: bool)
    ensures var step := Step(setup, m, shuttingDown);
      (HasId(m) ==> |step.responses| == 1 && step.responses[0].id == m.id) &&
      (!HasId(m) ==> step.responses == []) &&
      (step.stop <==> m.jsonrpc == JsonRpcVersion && m.methodName == "exit" && !HasId(m)) &&
      (step.shuttingDown <==>
        shuttingDown || (m.jsonrpc == JsonRpcVersion && m.methodName == "shutdown" && HasId(m)))
  {
  }

  /** A request with a wrong version or no method gets exactly one -32600. */
  lemma InvalidRequest(setup: Setup, m: Message, shuttingDown: bool)
    requires HasId(m) && (m.jsonrpc != JsonRpcVersion || m.methodName == "")
    ensures var step := Step(setup, m, shuttingDown);
      |step.responses| == 1 && step.responses[0].body.Error? &&
      step.responses[0].body.code == InvalidRequestCode &&
      !step.stop && step.shuttingDown == shuttingDown
  {
  }

  /** The number of messages that carry an id. */
  function IdCount(input: seq<Incoming>): nat
    decreases |input|
  {
    if input == [] then 0
    else (if input[0].Msg? && HasId(input[0].msg) then 1 else 0) + IdCount(input[1..])
  }

  /** `Serve` sends at most one response per message with an id, and every
      response carries the id of one of the messages. */
  lemma {:induction false} RunResponses(setup: Setup, input: seq<Incoming>, shuttingDown: bool)
    ensures |Run(setup, input, shuttingDown).responses| <= IdCount(input)
    ensures forall r :: r in Run(setup, input, shuttingDown).responses ==>
      exists k :: 0 <= k < |input| && input[k].Msg? && HasId(input[k].msg) && input[k].msg.id == r.id
    decreases |input|
  {
    if input != [] && input[0].Msg? {
      var m := input[0].msg;
      var step := Step(setup, m, shuttingDown);
      StepResponses(setup, m, shuttingDown);
      if !step.stop {
        var rest := Run(setup, input[1..], step.shuttingDown);
        RunResponses(setup, input[1..], step.shuttingDown);
        forall r | r in Run(setup, input, shuttingDown).responses
          ensures exists k :: 0 <= k < |input| && input[k].Msg? && HasId(input[k].msg) && input[k].msg.id == r.id
        {
          if r in rest.responses {
            var k :| 0 <= k < |input[1..]| && input[1..][k].Msg? && HasId(input[1..][k].msg) && input[1..][k].msg.id == r.id;
            assert input[k + 1] == input[1..][k];
          } else {
            assert input[0].msg.id == r.id;
          }
        }
      }
    }
  }

  /** A stream of requests, all with ids, is answered in order, one
      response per request, each with its request's id. */
  lemma {:induction false} RunAnswersEveryRequest(setup: Setup, input: seq<Incoming>, shuttingDown: bool)
    requires forall k :: 0 <= k < |input| ==> input[k].Msg? && HasId(input[k].msg)
    ensures var o := Run(setup, input, shuttingDown);
      o.err == None && |o.responses| == |input| &&
      forall k :: 0 <= k < |input| ==> o.responses[k].id == input[k].msg.id
    decreases |input|
  {
    if input != [] {
      var m := input[0].msg;
      var step := Step(setup, m, shuttingDown);
      StepResponses(setup, m, shuttingDown);
      RunAnswersEveryRequest(setup, input[1..], step.shuttingDown);
      var o := Run(setup, input, shuttingDown);
      forall k | 0 <= k < |input| ensures o.responses[k].id == input[k].msg.id {
        if k > 0 {
          assert input[1..][k - 1] == input[k];
        }
      }
    }
  }

  /** An "exit" notification ends `Serve` with no error, whatever follows,
      whether or not a shutdown was requested. */
  lemma ExitEndsServe(setup: Setup, m: Message, rest: seq<Incoming>, shuttingDown: bool)
    requires m.jsonrpc == JsonRpcVersion && m.methodName == "exit" && !HasId(m)
    ensures Run(setup, [Msg(m)] + rest, shuttingDown) == Outcome([], None, shuttingDown)
  {
    assert ([Msg(m)] + rest)[0] == Msg(m);
  }
}
