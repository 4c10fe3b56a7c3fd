/**
 * The AutoDevOps system prompt: choosing one of three prompt texts by
 * variant name, and putting it at the head of a conversation history.
 * The prompt texts themselves are prose; they stand here as three
 * distinct constants.
 */
module SystemPrompt {
  import opened Wrappers

  const CompactPrompt := "AUTODEVOPS_SYSTEM_PROMPT"
  const ExtendedPrompt := "AUTODEVOPS_EXTENDED_PROMPT"
  const CliPrompt := "AUTODEVOPS_CLI_PROMPT"

  /** `get_system_prompt`: the prompt of a known variant, the compact one for anything else. */
  function GetSystemPrompt(variant: string): (r: string)
    ensures r == ExtendedPrompt <==> variant == "extended"
    ensures r == CliPrompt <==> variant == "cli"
    ensures r == CompactPrompt <==> variant != "extended" && variant != "cli"
  {
    var prompts := map["compact" := CompactPrompt, "extended" := ExtendedPrompt, "cli" := CliPrompt];
    if variant in prompts then prompts[variant] else CompactPrompt
  }

  /** A conversation message: a dictionary of string fields such as "role" and "content". */
  datatype Message = Message(fields: map<string, string>)
  {
    /** `message.get("role")` */
    function Role(): Option<string>
    {
      if "role" in fields then Some(fields["role"]) else None
    }
  }

  /** `{"role": "system", "content": prompt}` */
  function SystemMessage(prompt: string): (m: Message)
    ensures m.Role() == Some("system")
  {
    Message(map["role" := "system", "content" := prompt])
  }

  /** The history has no system message at its head, so one is put in front. */
  predicate Prepends(history: seq<Message>)
  {
    history == [] || history[0].Role() != Some("system")
  }

  /** The messages after `inject_system_prompt`. */
  function Injected(history: seq<Message>, variant: string): seq<Message>
  {
    var system := SystemMessage(GetSystemPrompt(variant));
    if Prepends(history) then [system] + history else history[0 := system]
  }

  /**
   * The head is the variant's system message; a history without one grows by
   * one message and keeps all of its own behind it, and a history with one has
   * only its head replaced.
   */
  lemma InjectedShape(history: seq<Message>, variant: string)
    ensures var r := Injected(history, variant);
      && r != []
      && r[0] == SystemMessage(GetSystemPrompt(variant))
      && (Prepends(history) ==> |r| == |history| + 1 && r[1..] == history)
      && (!Prepends(history) ==> |r| == |history| && r[1..] == history[1..])
  {
  }

  /** Injecting again with any variant only exchanges the head: the history keeps its length. */
  lemma InjectTwice(history: seq<Message>, first: string, second: string)
    ensures Injected(Injected(history, first), second) == Injected(history, second)
  {
  }

  /** A conversation history: a Python list, which the injection may alter in place. */
  class History {
    var messages: seq<Message>

    constructor(messages: seq<Message>)
      ensures this.messages == messages
    {
      this.messages := messages;
    }
  }

  /**
   * `inject_system_prompt`: a new list with the system message in front, or the
   * same list with its head replaced by it.
   */
  method InjectSystemPrompt(history: History, variant: string) returns (result: History)
    modifies history
    ensures result.messages == Injected(old(history.messages), variant)
    ensures Prepends(old(history.messages)) ==> fresh(result) && history.messages == old(history.messages)
    ensures !Prepends(old(history.messages)) ==> result == history
  {
    var system := SystemMessage(GetSystemPrompt(variant));
    if history.messages == [] || history.messages[0].Role() != Some("system") {
      result := new History([system] + history.messages);
    } else {
      history.messages := history.messages[0 := system];
      result := history;
    }
  }
}
