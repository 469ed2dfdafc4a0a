/** The part of the message history that is sent along with a prompt under a token limit.  Messages
    are taken from the latest backwards and inserted behind the header, as long as the estimate of
    the tokens of the whole stays within the limit. */
module HistoryWindow {
  import opened Prelude

  datatype Message = Message(role: string, name: Option<string>, content: string)

  datatype Model = Gpt35 | Gpt4

  // The number of tokens of a text, as the tokenizer counts them.
  type Encoder = string -> nat

  const REPLY_PRIMER := 3
  const MEMORY_ALLOWANCE := 500
  const RESPONSE_ALLOWANCE := 1000

  function PerMessage(model: Model): int {
    match model case Gpt35 => 4 case Gpt4 => 3
  }

  function PerName(model: Model): int {
    match model case Gpt35 => -1 case Gpt4 => 1
  }

  function MessageTokens(m: Message, model: Model, encode: Encoder): (tokens: int)
    ensures tokens > 0
  {
    PerMessage(model) + encode(m.role)
    + (if m.name.Some? then encode(m.name.value) + PerName(model) else 0) + encode(m.content)
  }

  /** A message costs the tokens of its texts and an overhead of the model: for the older family four
      tokens, of which a name saves one beside its own tokens; for the newer three, and one for a name. */
  lemma {:induction false} MessageCosts(role: string, name: string, content: string, encode: Encoder)
    ensures MessageTokens(Message(role, None, content), Gpt35, encode) == 4 + encode(role) + encode(content)
    ensures MessageTokens(Message(role, None, content), Gpt4, encode) == 3 + encode(role) + encode(content)
    ensures MessageTokens(Message(role, Some(name), content), Gpt35, encode)
         == 3 + encode(role) + encode(name) + encode(content)
    ensures MessageTokens(Message(role, Some(name), content), Gpt4, encode)
         == 4 + encode(role) + encode(name) + encode(content)
  {
  }

  function SumTokens(ms: seq<Message>, model: Model, encode: Encoder): nat {
    if ms == [] then 0 else SumTokens(ms[..|ms| - 1], model, encode) + MessageTokens(ms[|ms| - 1], model, encode)
  }

  method CountMessageTokens(messages: seq<Message>, model: Model, encode: Encoder) returns (tokens: int)
    ensures tokens == SumTokens(messages, model, encode) + 3
  {
    tokens := 0;
    for k := 0 to |messages|
      invariant tokens == SumTokens(messages[..k], model, encode)
    {
      assert messages[..k + 1][..k] == messages[..k];
      tokens := tokens + MessageTokens(messages[k], model, encode);
    }
    assert messages[..|messages|] == messages;
    tokens := tokens + REPLY_PRIMER;
  }

  lemma {:induction false} SumConcat(a: seq<Message>, b: seq<Message>, model: Model, encode: Encoder)
    ensures SumTokens(a + b, model, encode) == SumTokens(a, model, encode) + SumTokens(b, model, encode)
  {
    if b == [] {
      assert a + b == a;
    } else {
      assert (a + b)[..|a + b| - 1] == a + b[..|b| - 1];
      SumConcat(a, b[..|b| - 1], model, encode);
    }
  }

  function Latest(history: seq<Message>, k: nat): seq<Message>
    requires k <= |history|
  {
    history[|history| - k..]
  }

  // What the loop charges for everything else and the last k messages: every message is counted as a
  // list of its own, so each is charged one reply primer too many.
  function Estimate(base: int, history: seq<Message>, k: nat, encode: Encoder): int
    requires k <= |history|
  {
    base + SumTokens(Latest(history, k), Gpt35, encode) + k * REPLY_PRIMER
  }

  lemma {:induction false} OneMessage(m: Message, encode: Encoder)
    ensures SumTokens([m], Gpt35, encode) == MessageTokens(m, Gpt35, encode)
  {
    assert [m][..0] == [];
  }

  lemma {:induction false} EstimateStep(base: int, history: seq<Message>, k: nat, encode: Encoder)
    requires k < |history|
    ensures Estimate(base, history, k + 1, encode)
         == Estimate(base, history, k, encode) + MessageTokens(history[|history| - 1 - k], Gpt35, encode) + REPLY_PRIMER
  {
    var m := history[|history| - 1 - k];
    assert Latest(history, k + 1) == [m] + Latest(history, k);
    SumConcat([m], Latest(history, k), Gpt35, encode);
    OneMessage(m, encode);
  }

  lemma {:induction false} EstimateGrows(base: int, history: seq<Message>, j: nat, k: nat, encode: Encoder)
    requires j <= k <= |history|
    ensures Estimate(base, history, j, encode) <= Estimate(base, history, k, encode)
    decreases k
  {
    if j < k {
      EstimateGrows(base, history, j, k - 1, encode);
      EstimateStep(base, history, k - 1, encode);
    }
  }

  /** The last k messages are within the estimate (unless there are none), and no larger number is. */
  ghost predicate LongestFitting(base: int, history: seq<Message>, k: nat, sendLimit: int, encode: Encoder) {
    && k <= |history|
    && (k > 0 ==> Estimate(base, history, k, encode) <= sendLimit)
    && forall j: nat :: k < j <= |history| ==> Estimate(base, history, j, encode) > sendLimit
  }

  lemma {:induction false} NothingMoreFits(base: int, history: seq<Message>, k: nat, sendLimit: int, encode: Encoder)
    requires k < |history| && Estimate(base, history, k + 1, encode) > sendLimit
    requires k > 0 ==> Estimate(base, history, k, encode) <= sendLimit
    ensures LongestFitting(base, history, k, sendLimit, encode)
  {
    forall j: nat | k < j <= |history| ensures Estimate(base, history, j, encode) > sendLimit {
      EstimateGrows(base, history, k + 1, j, encode);
    }
  }

  function Header(systemPrompt: string, timeMessage: string, userPrompt: string): seq<Message> {
    [Message("system", None, systemPrompt), Message("system", None, timeMessage), Message("user", None, userPrompt)]
  }

  // The charge for the header, the trigger and the memory.
  function BaseCharge(header: seq<Message>, trigger: Message, encode: Encoder): int {
    SumTokens(header, Gpt35, encode) + REPLY_PRIMER
    + MessageTokens(trigger, Gpt35, encode) + REPLY_PRIMER + MEMORY_ALLOWANCE
  }

  /** The context is the header, a suffix of the history in its own order, and the trigger; the suffix
      is the longest that fits; and the true count of the context, the memory allowance and the tokens
      left for the answer fall short of the limit by exactly the overcounted primers. */
  method ChatContext(
    header: seq<Message>, triggeringPrompt: string, history: seq<Message>, tokenLimit: int, encode: Encoder)
    returns (context: seq<Message>, tokensRemaining: int)
    ensures |header| < |context| <= |header| + |history| + 1
    ensures var k := |context| - |header| - 1;
      && context == header + Latest(history, k) + [Message("user", None, triggeringPrompt)]
      && LongestFitting(BaseCharge(header, Message("user", None, triggeringPrompt), encode),
                        history, k, tokenLimit - 1000, encode)
      && SumTokens(context, Gpt35, encode) + 3 + 500 + tokensRemaining == tokenLimit - (k + 1) * 3
  {
    var trigger := Message("user", None, triggeringPrompt);
    var used := CountMessageTokens(header, Gpt35, encode);
    var triggerTokens := CountMessageTokens([trigger], Gpt35, encode);
    OneMessage(trigger, encode);
    used := used + triggerTokens + MEMORY_ALLOWANCE;
    context, used := AddHistory(header, history, used, tokenLimit - RESPONSE_ALLOWANCE, encode);
    ContextTokens(header, Latest(history, |context| - |header|), trigger, encode);
    context := context + [trigger];
    tokensRemaining := tokenLimit - used;
  }

  lemma {:induction false} ContextTokens(header: seq<Message>, latest: seq<Message>, trigger: Message, encode: Encoder)
    ensures SumTokens(header + latest + [trigger], Gpt35, encode)
         == SumTokens(header, Gpt35, encode) + SumTokens(latest, Gpt35, encode) + MessageTokens(trigger, Gpt35, encode)
  {
    SumConcat(header, latest, Gpt35, encode);
    SumConcat(header + latest, [trigger], Gpt35, encode);
    OneMessage(trigger, encode);
  }

  // Where the loop stands after taking k messages.
  ghost predicate Taken(context: seq<Message>, used: int, k: nat, header: seq<Message>, history: seq<Message>,
                        base: int, sendLimit: int, encode: Encoder)
  {
    && k <= |history|
    && context == header + Latest(history, k)
    && used == Estimate(base, history, k, encode)
    && (k > 0 ==> used <= sendLimit)
  }

  lemma {:induction false} TakeOne(
    context: seq<Message>, used: int, k: nat, header: seq<Message>, history: seq<Message>, base: int,
    sendLimit: int, encode: Encoder)
    requires k < |history| && Taken(context, used, k, header, history, base, sendLimit, encode)
    ensures |context| >= |header|
    ensures var m := history[|history| - 1 - k];
            var longer := used + MessageTokens(m, Gpt35, encode) + REPLY_PRIMER;
            if longer > sendLimit then LongestFitting(base, history, k, sendLimit, encode)
            else Taken(context[..|header|] + [m] + context[|header|..], longer, k + 1,
                       header, history, base, sendLimit, encode)
  {
    EstimateStep(base, history, k, encode);
    InsertAfterHeader(context, header, history, k);
    if Estimate(base, history, k + 1, encode) > sendLimit {
      NothingMoreFits(base, history, k, sendLimit, encode);
    }
  }

  lemma {:induction false} AllTaken(
    context: seq<Message>, used: int, k: nat, header: seq<Message>, history: seq<Message>, base: int,
    sendLimit: int, encode: Encoder)
    requires k == |history| && Taken(context, used, k, header, history, base, sendLimit, encode)
    ensures LongestFitting(base, history, k, sendLimit, encode)
  {
  }

  method CountOne(message: Message, encode: Encoder) returns (tokens: int)
    ensures tokens == MessageTokens(message, Gpt35, encode) + REPLY_PRIMER
  {
    tokens := CountMessageTokens([message], Gpt35, encode);
    OneMessage(message, encode);
  }

  // Inserts messages behind the header, latest first, until the next one does not fit.
  method AddHistory(header: seq<Message>, history: seq<Message>, base: int, sendTokenLimit: int, encode: Encoder)
    returns (context: seq<Message>, used: int)
    ensures |context| >= |header|
    ensures Taken(context, used, |context| - |header|, header, history, base, sendTokenLimit, encode)
    ensures LongestFitting(base, history, |context| - |header|, sendTokenLimit, encode)
  {
    context, used := header, base;
    NoneTaken(header, history, base, sendTokenLimit, encode);
    var insertion := |context|;
    var next := |history| - 1;
    ghost var k := 0;
    while next >= 0
      invariant -1 <= next && k == |history| - 1 - next && |context| == |header| + k
      invariant Taken(context, used, k, header, history, base, sendTokenLimit, encode)
    {
      var message := history[next];
      var tokens := CountOne(message, encode);
      TakeOne(context, used, k, header, history, base, sendTokenLimit, encode);
      if used + tokens > sendTokenLimit {
        return;
      }
      context := context[..insertion] + [message] + context[insertion..];
      used := used + tokens;
      next, k := next - 1, k + 1;
    }
    AllTaken(context, used, k, header, history, base, sendTokenLimit, encode);
  }

  lemma {:induction false} NoneTaken(
    header: seq<Message>, history: seq<Message>, base: int, sendLimit: int, encode: Encoder)
    ensures Taken(header, base, 0, header, history, base, sendLimit, encode)
  {
    assert Latest(history, 0) == [];
    assert header + [] == header;
  }

  lemma {:induction false} InsertAfterHeader(context: seq<Message>, header: seq<Message>, history: seq<Message>, k: nat)
    requires k < |history| && context == header + Latest(history, k)
    ensures context[..|header|] + [history[|history| - 1 - k]] + context[|header|..] == header + Latest(history, k + 1)
  {
    assert Latest(history, k + 1) == [history[|history| - 1 - k]] + Latest(history, k);
  }

  /** The context of the first three messages: the system prompt, the time and the user prompt. */
  method Chat(systemPrompt: string, timeMessage: string, userPrompt: string, triggeringPrompt: string,
              history: seq<Message>, tokenLimit: int, encode: Encoder)
    returns (context: seq<Message>, tokensRemaining: int)
    ensures |context| >= 4 && context[0] == Message("system", None, systemPrompt)
    ensures context[1] == Message("system", None, timeMessage) && context[2] == Message("user", None, userPrompt)
    ensures context[|context| - 1] == Message("user", None, triggeringPrompt)
    ensures |context| - 4 <= |history| && context[3..|context| - 1] == Latest(history, |context| - 4)
    ensures SumTokens(context, Gpt35, encode) + 3 + 500 + tokensRemaining < tokenLimit
  {
    context, tokensRemaining :=
      ChatContext(Header(systemPrompt, timeMessage, userPrompt), triggeringPrompt, history, tokenLimit, encode);
  }
}
