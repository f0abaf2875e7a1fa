/**
  The reply logic of the Telegram bot's message handler (telegram_bot.py,
  handle_message). The guardrail and real-estate agents are language-model
  calls; here the guardrail's verdict and the agent's run are inputs
  supplied by the caller. What the handler sends is returned as a list of
  bot actions instead of being sent over the network.
*/
module TelegramBot {
  import opened Optional
  import opened MarkdownV2

  const Refusal: string := "Desculpe, só posso ajudar com questões relacionadas a imóveis."
  const Fallback: string := "Não obtive uma resposta. Por favor, tente novamente."
  const ErrorReply: string := "Ocorreu um erro ao processar sua solicitação. Por favor, tente novamente mais tarde."
  const PropertiesHeader: string := "\n\n*Imóveis encontrados:*\n"
  const SlotsHeader: string := "\n\n*Horários disponíveis:*\n"

  /** A table shown verbatim inside a MarkdownV2 code block. */
  function CodeBlock(table: string): string {
    "```\n" + table + "\n```"
  }

  // ---------------------------------------------------------------------
  // Python's str.strip()
  // ---------------------------------------------------------------------

  /** The characters for which Python's str.isspace() holds. */
  predicate IsSpace(c: char) {
    || c == ' ' || ('\t' <= c <= '\r') || ('\U{1c}' <= c <= '\U{1f}')
    || c == '\U{85}' || c == '\U{a0}' || c == '\U{1680}'
    || ('\U{2000}' <= c <= '\U{200a}') || c == '\U{2028}' || c == '\U{2029}'
    || c == '\U{202f}' || c == '\U{205f}' || c == '\U{3000}'
  }

  predicate IsBlank(s: string) {
    forall i :: 0 <= i < |s| ==> IsSpace(s[i])
  }

  /** str.lstrip(): the longest suffix that does not start with whitespace. */
  function TrimStart(s: string): (r: string)
    ensures |r| <= |s| && r == s[|s| - |r|..]
    ensures IsBlank(s[..|s| - |r|])
    ensures r != [] ==> !IsSpace(r[0])
  {
    if s != [] && IsSpace(s[0]) then
      var r := TrimStart(s[1..]);
      assert s[..|s| - |r|] == [s[0]] + s[1..][..|s| - 1 - |r|];
      BlankConcat([s[0]], s[1..][..|s| - 1 - |r|]);
      r
    else s
  }

  /** str.rstrip(): the longest prefix that does not end with whitespace. */
  function TrimEnd(s: string): (r: string)
    ensures |r| <= |s| && r == s[..|r|]
    ensures IsBlank(s[|r|..])
    ensures r != [] ==> !IsSpace(r[|r| - 1])
  {
    if s != [] && IsSpace(s[|s| - 1]) then
      var r := TrimEnd(s[..|s| - 1]);
      assert s[|r|..] == s[..|s| - 1][|r|..] + [s[|s| - 1]];
      BlankConcat(s[..|s| - 1][|r|..], [s[|s| - 1]]);
      r
    else s
  }

  /** str.strip(). */
  function Strip(s: string): string {
    TrimEnd(TrimStart(s))
  }

  /** Stripping leaves nothing exactly when the text is all whitespace. */
  lemma StripEmptyIffBlank(s: string)
    ensures Strip(s) == "" <==> IsBlank(s)
  {
    var t := TrimStart(s);
    if Strip(s) == "" {
      assert t[0..] == t;
      forall i | 0 <= i < |s| ensures IsSpace(s[i]) {
        assert s[i] == s[..|s| - |t|][i];
      }
    }
  }

  /** A concatenation is blank exactly when both parts are. */
  lemma BlankConcat(a: string, b: string)
    ensures IsBlank(a + b) <==> IsBlank(a) && IsBlank(b)
  {
    if IsBlank(a + b) {
      forall i | 0 <= i < |a| ensures IsSpace(a[i]) {
        assert a[i] == (a + b)[i];
      }
      forall i | 0 <= i < |b| ensures IsSpace(b[i]) {
        assert b[i] == (a + b)[|a| + i];
      }
    }
  }

  /** A reserved character or a backslash is never whitespace, so its escape is blank exactly when it is. */
  lemma EscapeCharBlank(c: char)
    ensures IsBlank(EscapeChar(c)) <==> IsSpace(c)
  {
    if IsReserved(c) {
      assert EscapeChar(c)[0] == Backslash;
    } else {
      assert EscapeChar(c)[0] == c;
    }
  }

  /** Escaping keeps a text blank or not blank. */
  lemma {:induction false} EscapeKeepsBlank(s: string)
    ensures IsBlank(Escape(s)) <==> IsBlank(s)
  {
    if s != [] {
      EscapeKeepsBlank(s[1..]);
      assert Escape(s) == EscapeChar(s[0]) + Escape(s[1..]);
      BlankConcat(EscapeChar(s[0]), Escape(s[1..]));
      assert s == [s[0]] + s[1..];
      BlankConcat([s[0]], s[1..]);
      EscapeCharBlank(s[0]);
    }
  }

  // ---------------------------------------------------------------------
  // The agents' results and the bot's actions
  // ---------------------------------------------------------------------

  /** One entry of the conversation history kept for the agent. */
  datatype ModelMessage = ModelMessage(role: string, content: string)

  /** The agent's structured output, as the handler reads it. */
  datatype AgentOutput = AgentOutput(response: Option<string>, properties: Option<string>, slots: Option<string>)

  /** One agent run: the messages it adds to the conversation and its output. */
  datatype AgentRun = AgentRun(newMessages: seq<ModelMessage>, output: AgentOutput)

  datatype ParseMode = PlainText | MarkdownV2Mode

  /** What the handler does on the chat. */
  datatype BotAction = Typing | Reply(text: string, mode: ParseMode)

  /** Python truthiness of an optional string: present and not empty. */
  predicate Truthy(o: Option<string>) {
    o.Some? && o.value != ""
  }

  /** A table is shown when it is present, not empty, and not the one shown last. */
  predicate ShouldShow(table: Option<string>, last: Option<string>) {
    Truthy(table) && table != last
  }

  /** The last-shown cache after a reply: the table if it was shown, the old value otherwise. */
  function NextShown(table: Option<string>, last: Option<string>): Option<string> {
    if ShouldShow(table, last) then table else last
  }

  /** Python's "".join(parts). */
  function Concat(parts: seq<string>): string {
    if parts == [] then "" else parts[0] + Concat(parts[1..])
  }

  /** The message the reply consists of, piece by piece: escaped response, then properties, then slots. */
  function MessageParts(out: AgentOutput, lastProperties: Option<string>, lastSlots: Option<string>): seq<string> {
    ResponsePart(out.response) + TablePart(PropertiesHeader, out.properties, lastProperties)
    + TablePart(SlotsHeader, out.slots, lastSlots)
  }

  /** The escaped response, when it is truthy. */
  function ResponsePart(response: Option<string>): seq<string> {
    if Truthy(response) then [Escape(response.value)] else []
  }

  /** A header and the table's code block, when the table is to be shown. */
  function TablePart(header: string, table: Option<string>, last: Option<string>): seq<string> {
    if ShouldShow(table, last) then [header, CodeBlock(table.value)] else []
  }

  /** One conditional pair of appends, as a single conditional extension. */
  lemma AppendPair<T>(before: seq<T>, after: seq<T>, cond: bool, x: T, y: T)
    requires after == if cond then before + [x] + [y] else before
    ensures after == before + (if cond then [x, y] else [])
  {
  }

  /** The reply sent after an agent run: the stripped message in MarkdownV2, or the plain fallback text. */
  function ReplyFor(out: AgentOutput, lastProperties: Option<string>, lastSlots: Option<string>): BotAction {
    var message := Strip(Concat(MessageParts(out, lastProperties, lastSlots)));
    if message != "" then Reply(message, MarkdownV2Mode) else Reply(Fallback, PlainText)
  }

  /**
    The reply assembly of the handler: the parts of the message in order,
    stripped, with the fallback text when nothing is left; and the
    last-shown tables once it is done.
   */
  method ComposeReply(output: AgentOutput, lastProperties: Option<string>, lastSlots: Option<string>)
    returns (reply: BotAction, shownProperties: Option<string>, shownSlots: Option<string>)
    ensures reply == ReplyFor(output, lastProperties, lastSlots)
    ensures shownProperties == NextShown(output.properties, lastProperties)
    ensures shownSlots == NextShown(output.slots, lastSlots)
  {
    shownProperties, shownSlots := lastProperties, lastSlots;
    var messageParts := [];
    if Truthy(output.response) {
      messageParts := messageParts + [Escape(output.response.value)];
    }
    assert messageParts == ResponsePart(output.response);
    ghost var afterResponse := messageParts;
    if Truthy(output.properties) && output.properties != shownProperties {
      messageParts := messageParts + [PropertiesHeader];
      messageParts := messageParts + [CodeBlock(output.properties.value)];
      shownProperties := output.properties;
    }
    assert messageParts == afterResponse + TablePart(PropertiesHeader, output.properties, lastProperties) by {
      if ShouldShow(output.properties, lastProperties) {
        AppendPair(afterResponse, messageParts, true, PropertiesHeader, CodeBlock(output.properties.value));
      } else {
        AppendPair(afterResponse, messageParts, false, PropertiesHeader, PropertiesHeader);
      }
    }
    ghost var afterProperties := messageParts;
    if Truthy(output.slots) && output.slots != shownSlots {
      messageParts := messageParts + [SlotsHeader];
      messageParts := messageParts + [CodeBlock(output.slots.value)];
      shownSlots := output.slots;
    }
    assert messageParts == afterProperties + TablePart(SlotsHeader, output.slots, lastSlots) by {
      if ShouldShow(output.slots, lastSlots) {
        AppendPair(afterProperties, messageParts, true, SlotsHeader, CodeBlock(output.slots.value));
      } else {
        AppendPair(afterProperties, messageParts, false, SlotsHeader, SlotsHeader);
      }
    }
    var finalMessage := Strip(Concat(messageParts));
    if finalMessage != "" {
      reply := Reply(finalMessage, MarkdownV2Mode);
    } else {
      reply := Reply(Fallback, PlainText);
    }
  }

  // ---------------------------------------------------------------------
  // The per-user state and the handler (lines 31-79)
  // ---------------------------------------------------------------------

  /** The skip test on incoming text: nothing is left once it is stripped. */
  method IsSkipped(userInput: string) returns (skip: bool)
    ensures skip <==> IsBlank(userInput)
  {
    StripEmptyIffBlank(userInput);
    skip := Strip(userInput) == "";
  }

  /** The bot's per-user store (context.user_data). */
  class UserData {
    var messageHistory: seq<ModelMessage>
    var lastShownProperties: Option<string>
    var lastShownSlots: Option<string>

    /** A user the bot has not talked to: no history and nothing shown yet. */
    constructor ()
      ensures messageHistory == [] && lastShownProperties == None && lastShownSlots == None
    {
      messageHistory := [];
      lastShownProperties := None;
      lastShownSlots := None;
    }

    /**
      Handles one text message. `rulesBroken` is the guardrail agent's verdict
      and `run` the real-estate agent's run, both on the text and the stored
      history; the guardrail's verdict decides whether the run is used.
     */
    method HandleMessage(userInput: string, rulesBroken: bool, run: AgentRun)
      returns (actions: seq<BotAction>)
      modifies this
      ensures IsBlank(userInput) ==>
                actions == [] && unchanged(this)
      ensures !IsBlank(userInput) && rulesBroken ==>
                actions == [Typing, Reply(Refusal, PlainText)] && unchanged(this)
      ensures !IsBlank(userInput) && !rulesBroken ==>
                && messageHistory == old(messageHistory) + run.newMessages
                && lastShownProperties == NextShown(run.output.properties, old(lastShownProperties))
                && lastShownSlots == NextShown(run.output.slots, old(lastShownSlots))
                && actions == [Typing, ReplyFor(run.output, old(lastShownProperties), old(lastShownSlots))]
    {
      actions := [];
      var skip := IsSkipped(userInput);
      if skip {
        return;
      }
      actions := actions + [Typing];
      var history := messageHistory;
      if rulesBroken {
        actions := actions + [Reply(Refusal, PlainText)];
        return;
      }
      messageHistory := history + run.newMessages;
      var output := run.output;
      var reply, shownProperties, shownSlots := ComposeReply(output, lastShownProperties, lastShownSlots);
      lastShownProperties, lastShownSlots := shownProperties, shownSlots;
      actions := actions + [reply];
    }

    /**
      handle_message as written, on the agent's declared output record. The
      steps up to the properties table run as in HandleMessage; reading
      `slots` at line 69 is an attribute error on this record, and the generic
      handler of lines 81-83 replies with the error text after the history
      and the properties cache have been written.
     */
    method HandleDeclaredMessage(userInput: string, rulesBroken: bool, newMessages: seq<ModelMessage>,
                                 output: DeclaredOutput)
      returns (actions: seq<BotAction>)
      modifies this
      ensures IsBlank(userInput) ==>
                actions == [] && unchanged(this)
      ensures !IsBlank(userInput) && rulesBroken ==>
                actions == [Typing, Reply(Refusal, PlainText)] && unchanged(this)
      ensures !IsBlank(userInput) && !rulesBroken ==>
                && messageHistory == old(messageHistory) + newMessages
                && lastShownProperties == NextShown(output.properties, old(lastShownProperties))
                && lastShownSlots == old(lastShownSlots)
                && actions == [Typing, Reply(ErrorReply, PlainText)]
    {
      actions := [];
      var skip := IsSkipped(userInput);
      if skip {
        return;
      }
      actions := actions + [Typing];
      var history := messageHistory;
      if rulesBroken {
        actions := actions + [Reply(Refusal, PlainText)];
        return;
      }
      messageHistory := history + newMessages;
      var messageParts: seq<string> := [];
      if output.response != "" {
        messageParts := messageParts + [Escape(output.response)];
      }
      if Truthy(output.properties) && output.properties != lastShownProperties {
        messageParts := messageParts + [PropertiesHeader];
        messageParts := messageParts + [CodeBlock(output.properties.value)];
        lastShownProperties := output.properties;
      }
      match DeclaredAttribute(output, "slots")
      case AttributeError =>
        actions := actions + [Reply(ErrorReply, PlainText)];
    }
  }

  // ---------------------------------------------------------------------
  // Properties of the reply
  // ---------------------------------------------------------------------

  /** A table just shown is not shown again while it stays the last one shown. */
  lemma ShownTableNotRepeated(table: Option<string>, last: Option<string>)
    ensures !ShouldShow(table, NextShown(table, last))
  {
  }

  lemma {:induction false} ConcatAppend(a: seq<string>, b: seq<string>)
    ensures Concat(a + b) == Concat(a) + Concat(b)
  {
    if a == [] {
      assert a + b == b;
    } else {
      assert (a + b)[1..] == a[1..] + b;
      ConcatAppend(a[1..], b);
    }
  }

  /** The text the response contributes. */
  function ResponseText(response: Option<string>): string {
    if Truthy(response) then Escape(response.value) else ""
  }

  /** The text a table contributes under its header. */
  function TableText(header: string, table: Option<string>, last: Option<string>): string {
    if ShouldShow(table, last) then header + CodeBlock(table.value) else ""
  }

  lemma ConcatResponsePart(response: Option<string>)
    ensures Concat(ResponsePart(response)) == ResponseText(response)
  {
    if Truthy(response) {
      assert Concat(ResponsePart(response)) == Escape(response.value) + Concat([]);
    }
  }

  lemma ConcatTablePart(header: string, table: Option<string>, last: Option<string>)
    ensures Concat(TablePart(header, table, last)) == TableText(header, table, last)
  {
    if ShouldShow(table, last) {
      var p := TablePart(header, table, last);
      assert Concat(p) == p[0] + Concat(p[1..]);
      assert Concat(p[1..]) == p[1] + Concat(p[2..]);
    }
  }

  /**
    The message is the escaped response, then the properties header and
    block, then the slots header and block, each only when it applies.
   */
  lemma MessageOrder(out: AgentOutput, lastProperties: Option<string>, lastSlots: Option<string>)
    ensures Concat(MessageParts(out, lastProperties, lastSlots)) ==
      ResponseText(out.response)
      + TableText(PropertiesHeader, out.properties, lastProperties)
      + TableText(SlotsHeader, out.slots, lastSlots)
  {
    var r := ResponsePart(out.response);
    var p := TablePart(PropertiesHeader, out.properties, lastProperties);
    var s := TablePart(SlotsHeader, out.slots, lastSlots);
    ConcatAppend(r + p, s);
    ConcatAppend(r, p);
    ConcatResponsePart(out.response);
    ConcatTablePart(PropertiesHeader, out.properties, lastProperties);
    ConcatTablePart(SlotsHeader, out.slots, lastSlots);
  }

  /** The response's text is blank iff the response is missing, empty or all whitespace. */
  lemma ResponseTextBlank(response: Option<string>)
    ensures IsBlank(ResponseText(response)) <==> !Truthy(response) || IsBlank(response.value)
  {
    if Truthy(response) {
      EscapeKeepsBlank(response.value);
    }
  }

  /** Under a header that is not blank, a table's text is blank iff the table is not shown. */
  lemma TableTextBlank(header: string, table: Option<string>, last: Option<string>)
    requires !IsBlank(header)
    ensures IsBlank(TableText(header, table, last)) <==> !ShouldShow(table, last)
  {
    if ShouldShow(table, last) {
      BlankConcat(header, CodeBlock(table.value));
    }
  }

  lemma HeadersNotBlank()
    ensures !IsBlank(PropertiesHeader) && !IsBlank(SlotsHeader)
  {
    assert PropertiesHeader[2] == '*' && SlotsHeader[2] == '*';
  }

  /**
    The plain fallback text is sent exactly when there is no non-blank
    response and neither table is shown; otherwise the reply is the
    stripped message in MarkdownV2.
   */
  lemma FallbackIff(out: AgentOutput, lastProperties: Option<string>, lastSlots: Option<string>)
    ensures ReplyFor(out, lastProperties, lastSlots) == Reply(Fallback, PlainText) <==>
      && (!Truthy(out.response) || IsBlank(out.response.value))
      && !ShouldShow(out.properties, lastProperties)
      && !ShouldShow(out.slots, lastSlots)
  {
    var r := ResponseText(out.response);
    var p := TableText(PropertiesHeader, out.properties, lastProperties);
    var s := TableText(SlotsHeader, out.slots, lastSlots);
    MessageOrder(out, lastProperties, lastSlots);
    StripEmptyIffBlank(r + p + s);
    BlankConcat(r + p, s);
    BlankConcat(r, p);
    ResponseTextBlank(out.response);
    HeadersNotBlank();
    TableTextBlank(PropertiesHeader, out.properties, lastProperties);
    TableTextBlank(SlotsHeader, out.slots, lastSlots);
  }

  /** A shown table is sent unescaped, between the header and the closing fence. */
  lemma TablesVerbatim(out: AgentOutput, lastProperties: Option<string>, lastSlots: Option<string>)
    requires ShouldShow(out.properties, lastProperties)
    ensures CodeBlock(out.properties.value) in MessageParts(out, lastProperties, lastSlots)
    ensures CodeBlock(out.properties.value)[4..4 + |out.properties.value|] == out.properties.value
  {
    var parts := MessageParts(out, lastProperties, lastSlots);
    var r := if Truthy(out.response) then [Escape(out.response.value)] else [];
    assert parts[|r| + 1] == CodeBlock(out.properties.value);
  }

  // ---------------------------------------------------------------------
  // The agent's declared output record (app/models/real_estate_models.py:5-7)
  // ---------------------------------------------------------------------

  /** RealStateAgentOutput as declared: a response and optional properties, and no slots field. */
  datatype DeclaredOutput = DeclaredOutput(response: string, properties: Option<string>)

  /** The declared output as HandleMessage reads it when the slots read yields no table. */
  function AsUsed(out: DeclaredOutput): AgentOutput {
    AgentOutput(Some(out.response), out.properties, None)
  }

  /** A read of an attribute of a record: its value, or Python's AttributeError. */
  datatype AttributeRead = Found(value: Option<string>) | AttributeError

  /** Attribute access on the declared record: `response` and `properties` are its only fields. */
  function DeclaredAttribute(out: DeclaredOutput, name: string): AttributeRead {
    if name == "response" then Found(Some(out.response))
    else if name == "properties" then Found(out.properties)
    else AttributeError
  }

  /**
    The two handlers on the same declared output leave the same history and
    caches behind, but HandleMessage never sends the error text, and a
    response with some non-whitespace text ("Olá", say) gets a MarkdownV2 reply.
   */
  lemma DeclaredReplyDiffers(output: DeclaredOutput, lastProperties: Option<string>, lastSlots: Option<string>)
    ensures NextShown(AsUsed(output).properties, lastProperties) == NextShown(output.properties, lastProperties)
    ensures NextShown(AsUsed(output).slots, lastSlots) == lastSlots
    ensures ReplyFor(AsUsed(output), lastProperties, lastSlots) != Reply(ErrorReply, PlainText)
    ensures !IsBlank(output.response) ==> ReplyFor(AsUsed(output), lastProperties, lastSlots).mode == MarkdownV2Mode
  {
    ReplyIsNotError(AsUsed(output), lastProperties, lastSlots);
    if !IsBlank(output.response) {
      FallbackIff(AsUsed(output), lastProperties, lastSlots);
    }
  }

  /** Every reply ReplyFor builds is either MarkdownV2 or the shorter fallback text. */
  lemma ReplyIsNotError(out: AgentOutput, lastProperties: Option<string>, lastSlots: Option<string>)
    ensures ReplyFor(out, lastProperties, lastSlots) != Reply(ErrorReply, PlainText)
  {
    assert |Fallback| < |ErrorReply|;
  }
}
