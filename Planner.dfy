/**
 * The planner agent: the prompts it sends, the recovery of a JSON object from
 * the LLM's free text (`_safe_json`) and the validation of that object as a
 * `PlannerOutput`. The LLM and `json.loads` are parameters.
 */
module Planner {
  import opened Wrappers
  import Json
  import opened Messages
  import Text
  import BraceSearch

  const SystemPrompt: string :=
    "You are a Planner Agent for Android QA automation. "
    + "Your job is to take a high-level goal and break it down into a JSON object with two fields:\n"
    + "- `subgoals`: a list of steps, where each step is a dictionary with 'step' and 'reference'.\n"
    + "- `reasoning`: a short explanation string.\n\n"
    + "\U{26A0}\U{FE0F} IMPORTANT:\n"
    + "- Only respond with a valid JSON object.\n"
    + "- Do not include any extra commentary, markdown, or explanation outside the JSON.\n"
    + "- Use double quotes only (\"), not single quotes.\n"
    + "- The output must be parseable by `json.loads()` in Python."

  /**
   * The optional task line of a prompt, `f"{prefix}{task}\n" if task else ""`:
   * empty exactly when there is no task or the task is empty.
   */
  function TaskLine(prefix: string, task: Option<string>): (r: string)
    ensures r == "" <==> task.None? || task.value == ""
    ensures r != "" ==> r == prefix + task.value + "\n"
  {
    if task.Some? && task.value != "" then prefix + task.value + "\n" else ""
  }

  /** The user prompt of `plan`: the line "Task: ..." when a task is given, then the goal and the output format. */
  function PlanPrompt(goal: string, task: Option<string>): (r: string)
    ensures TaskLine("Task: ", task) <= r
  {
    TaskLine("Task: ", task) + PlanRequest(goal)
  }

  /** The part of the `plan` prompt after the task line. */
  function PlanRequest(goal: string): string {
    "Given this goal: \"" + goal + "\"\n"
    + "Generate a valid JSON object like this:\n"
    + "{\n"
    + "  \"subgoals\": [\n"
    + "    {\"step\": \"<Step description>\", \"reference\": \"<Relevant UI Component or Activity>\"},\n"
    + "    {\"step\": \"<Another step>\", \"reference\": \"<Another component>\"}\n"
    + "  ],\n"
    + "  \"reasoning\": \"Brief reasoning for why these steps achieve the goal.\"\n"
    + "}"
  }

  /**
   * The user prompt of `replan`: the error, the past steps as Python prints
   * them (`pastSteps`), the line "Original Task: ..." when a task is given,
   * the goal and the output format.
   */
  function ReplanPrompt(goal: string, pastSteps: string, lastError: string, task: Option<string>): (r: string)
    ensures "We failed verifying the last step. Error: " + lastError + "\n" + "Past steps: " + pastSteps + "\n"
              + TaskLine("Original Task: ", task) <= r
  {
    ("We failed verifying the last step. Error: " + lastError + "\n" + "Past steps: " + pastSteps + "\n"
     + TaskLine("Original Task: ", task))
    + ReplanRequest(goal)
  }

  /** The part of the `replan` prompt after the task line. */
  function ReplanRequest(goal: string): string {
    "Original goal: " + goal + "\n\n"
    + "Provide a revised JSON object containing only:\n"
    + "- `subgoals`: list of remaining steps (as dicts with 'step' and 'reference')\n"
    + "- `reasoning`: a string\n\n"
    + "\U{26A0}\U{FE0F} No commentary or extra text. Strict JSON only."
  }

  /** The two messages of a planner call. */
  function ChatOf(prompt: string): seq<ChatMessage> {
    [ChatMessage("system", SystemPrompt), ChatMessage("user", prompt)]
  }

  /** The value `_safe_json` returns when the reply holds no brace span. */
  const InvalidReply: Json.Value := Json.Obj(map["subgoals" := Json.Arr([]), "reasoning" := Json.Str("invalid")])

  /** The value `_safe_json` returns when neither the span nor its repaired form parses. */
  function ParseErrorReply(message: string): Json.Value {
    Json.Obj(map["subgoals" := Json.Arr([]), "reasoning" := Json.Str("parse_error: " + message)])
  }

  /**
   * The quote repair `json_text.replace("'", '"')`: same length, no single
   * quote left, every other character kept.
   */
  function RepairQuotes(t: string): (r: string)
    ensures |r| == |t|
    ensures forall i :: 0 <= i < |r| ==> r[i] != '\''
    ensures forall i :: 0 <= i < |t| && t[i] != '\'' ==> r[i] == t[i]
    ensures forall i :: 0 <= i < |t| && t[i] == '\'' ==> r[i] == '"'
  {
    Text.ReplaceChar(t, '\'', '"')
  }

  /**
   * `_safe_json`: parse the greedy brace span of the reply; when that fails,
   * parse it again with single quotes turned into double quotes; when that
   * fails too, or when there is no span at all, return a fixed object with no
   * subgoals.
   */
  function SafeJson(txt: string, parse: Json.Parser): (j: Json.Value)
    ensures !BraceSearch.HasBracePair(txt) ==> j == InvalidReply
    ensures BraceSearch.HasBracePair(txt) ==>
              var span := BraceSearch.GreedyMatch(txt).value;
              (parse(span).Ok? ==> j == parse(span).value) &&
              (parse(span).DecodeError? && parse(RepairQuotes(span)).Ok? ==> j == parse(RepairQuotes(span)).value) &&
              (parse(span).DecodeError? && parse(RepairQuotes(span)).DecodeError? ==>
                 j == ParseErrorReply(parse(RepairQuotes(span)).message))
  {
    match BraceSearch.GreedyMatch(txt)
    case None => InvalidReply
    case Some(span) =>
      match parse(span)
      case Ok(v) => v
      case DecodeError(_) =>
        match parse(RepairQuotes(span))
        case Ok(v) => v
        case DecodeError(e) => ParseErrorReply(e)
  }

  /** Every value of a JSON object is a string: it validates as a subgoal (`Dict[str, str]`). */
  function SubgoalOf(v: Json.Value): (r: Option<Subgoal>)
    ensures r.Some? <==> v.Obj? && forall k :: k in v.fields ==> v.fields[k].Str?
    ensures r.Some? ==> SubgoalJson(r.value) == v
  {
    if v.Obj? && forall k :: k in v.fields ==> v.fields[k].Str? then
      var s := map k | k in v.fields :: v.fields[k].s;
      assert SubgoalJson(s).fields == v.fields;
      Some(s)
    else None
  }

  /** A JSON list validates as `List[Dict[str, str]]` when each element does. */
  function SubgoalsOf(items: seq<Json.Value>): (r: Option<seq<Subgoal>>)
    ensures r.Some? <==> forall i :: 0 <= i < |items| ==> SubgoalOf(items[i]).Some?
    ensures r.Some? ==> |r.value| == |items| && forall i :: 0 <= i < |items| ==> SubgoalJson(r.value[i]) == items[i]
  {
    if items == [] then Some([])
    else
      var first, rest := SubgoalOf(items[0]), SubgoalsOf(items[1..]);
      assert forall i :: 1 <= i < |items| ==> items[i] == items[1..][i - 1];
      if first.Some? && rest.Some? then Some([first.value] + rest.value) else None
  }

  /** `model_dump` of a `PlannerOutput`, as a JSON object. */
  function PlanJson(p: PlannerOutput): Json.Value {
    Json.Obj(map["subgoals" := Json.Arr(seq(|p.subgoals|, i requires 0 <= i < |p.subgoals| => SubgoalJson(p.subgoals[i]))),
                 "reasoning" := Json.Str(p.reasoning)])
  }

  /**
   * `PlannerOutput.model_validate`: an object with a list of string
   * dictionaries under "subgoals" and a string under "reasoning"; other keys
   * are ignored. `None` stands for the `ValidationError` it raises.
   */
  function ValidatePlan(j: Json.Value): (r: Option<PlannerOutput>)
    ensures r.Some? ==> j.Obj? && "subgoals" in j.fields && "reasoning" in j.fields
    ensures r.Some? ==> j.fields["reasoning"] == Json.Str(r.value.reasoning)
    ensures r.Some? ==> PlanJson(r.value).fields["subgoals"] == j.fields["subgoals"]
  {
    if j.Obj? && "subgoals" in j.fields && j.fields["subgoals"].Arr?
       && "reasoning" in j.fields && j.fields["reasoning"].Str? then
      var items := j.fields["subgoals"].items;
      match SubgoalsOf(items)
      case None => None
      case Some(subgoals) =>
        assert PlanJson(PlannerOutput(subgoals, j.fields["reasoning"].s)).fields["subgoals"].items == items;
        Some(PlannerOutput(subgoals, j.fields["reasoning"].s))
    else None
  }

  /** Dumping a plan and validating the dump gives the plan back. */
  lemma {:induction false} ValidateDumpRoundTrip(p: PlannerOutput)
    ensures ValidatePlan(PlanJson(p)) == Some(p)
  {
    var items := PlanJson(p).fields["subgoals"].items;
    forall i | 0 <= i < |items| ensures SubgoalOf(items[i]) == Some(p.subgoals[i]) {
      SubgoalRoundTrip(p.subgoals[i]);
    }
    var r := SubgoalsOf(items);
    forall i | 0 <= i < |items| ensures r.value[i] == p.subgoals[i] {
      SubgoalRoundTrip(r.value[i]);
    }
    assert r.value == p.subgoals;
    assert PlanJson(p).fields["reasoning"] == Json.Str(p.reasoning);
  }

  /** A subgoal read back from its own JSON object is the same subgoal. */
  lemma SubgoalRoundTrip(s: Subgoal)
    ensures SubgoalOf(SubgoalJson(s)) == Some(s)
  {
    var r := SubgoalOf(SubgoalJson(s));
    assert r.value == s;
  }

  /** Both fallback objects validate, as plans with no subgoals. */
  lemma FallbacksValidate(message: string)
    ensures ValidatePlan(InvalidReply) == Some(PlannerOutput([], "invalid"))
    ensures ValidatePlan(ParseErrorReply(message)) == Some(PlannerOutput([], "parse_error: " + message))
  {
    assert SubgoalsOf([]) == Some([]);
  }

  /**
   * `plan`: ask the LLM and validate what `_safe_json` recovers; `None` is the
   * `ValidationError` that escapes. A reply with no brace span, or a span that
   * does not parse even after repair, gives a fallback plan with no subgoals,
   * and validation fails only on a value `json.loads` returned.
   */
  function Plan(goal: string, task: Option<string>, chat: Chat, parse: Json.Parser): (r: Option<PlannerOutput>)
    ensures !BraceSearch.HasBracePair(chat(ChatOf(PlanPrompt(goal, task)))) ==> r == Some(PlannerOutput([], "invalid"))
    ensures forall p :: ParsesToPlan(chat(ChatOf(PlanPrompt(goal, task))), parse, p) ==> r == Some(p)
    ensures r.None? ==> RecoveredByParser(chat(ChatOf(PlanPrompt(goal, task))), parse)
    ensures var reply := chat(ChatOf(PlanPrompt(goal, task)));
            NeitherParses(reply, parse) ==> r == Some(PlannerOutput([], "parse_error: " + RepairedParseMessage(reply, parse)))
    ensures r == ValidatePlan(SafeJson(chat(ChatOf(PlanPrompt(goal, task))), parse))
  {
    ValidateReply(chat(ChatOf(PlanPrompt(goal, task))), parse)
  }

  /** `replan`: as `plan`, with the replanning prompt. */
  function Replan(goal: string, pastSteps: string, lastError: string, task: Option<string>, chat: Chat, parse: Json.Parser)
    : (r: Option<PlannerOutput>)
    ensures var reply := chat(ChatOf(ReplanPrompt(goal, pastSteps, lastError, task)));
            !BraceSearch.HasBracePair(reply) ==> r == Some(PlannerOutput([], "invalid"))
    ensures forall p :: ParsesToPlan(chat(ChatOf(ReplanPrompt(goal, pastSteps, lastError, task))), parse, p) ==> r == Some(p)
    ensures r.None? ==> RecoveredByParser(chat(ChatOf(ReplanPrompt(goal, pastSteps, lastError, task))), parse)
    ensures var reply := chat(ChatOf(ReplanPrompt(goal, pastSteps, lastError, task)));
            NeitherParses(reply, parse) ==> r == Some(PlannerOutput([], "parse_error: " + RepairedParseMessage(reply, parse)))
    ensures r == ValidatePlan(SafeJson(chat(ChatOf(ReplanPrompt(goal, pastSteps, lastError, task))), parse))
  {
    ValidateReply(chat(ChatOf(ReplanPrompt(goal, pastSteps, lastError, task))), parse)
  }

  /** `PlannerOutput.model_validate(self._safe_json(content))`, the common end of `plan` and `replan`. */
  function ValidateReply(reply: string, parse: Json.Parser): (r: Option<PlannerOutput>)
    ensures !BraceSearch.HasBracePair(reply) ==> r == Some(PlannerOutput([], "invalid"))
    ensures forall p :: ParsesToPlan(reply, parse, p) ==> r == Some(p)
    ensures r.None? ==> RecoveredByParser(reply, parse)
    ensures NeitherParses(reply, parse) ==> r == Some(PlannerOutput([], "parse_error: " + RepairedParseMessage(reply, parse)))
    ensures r == ValidatePlan(SafeJson(reply, parse))
  {
    FallbacksValidate("");
    FallbacksValidate(if NeitherParses(reply, parse) then RepairedParseMessage(reply, parse) else "");
    ParsedPlanReturned(reply, parse);
    var r := ValidatePlan(SafeJson(reply, parse));
    if r.None? then OnlyParsedRepliesFailValidation(reply, parse); r else r
  }

  /** The reply has a greedy span, and neither it nor its repaired form parses. */
  predicate NeitherParses(reply: string, parse: Json.Parser) {
    BraceSearch.HasBracePair(reply) &&
    var span := BraceSearch.GreedyMatch(reply).value;
    parse(span).DecodeError? && parse(RepairQuotes(span)).DecodeError?
  }

  /** The message of the decode error raised on the repaired span. */
  function RepairedParseMessage(reply: string, parse: Json.Parser): string
    requires NeitherParses(reply, parse)
  {
    parse(RepairQuotes(BraceSearch.GreedyMatch(reply).value)).message
  }

  /**
   * The reply's greedy span parses to the dump of plan `p`, at once or after
   * the quote repair.
   */
  predicate ParsesToPlan(reply: string, parse: Json.Parser, p: PlannerOutput) {
    BraceSearch.HasBracePair(reply) &&
    var span := BraceSearch.GreedyMatch(reply).value;
    parse(span) == Json.Ok(PlanJson(p)) ||
    (parse(span).DecodeError? && parse(RepairQuotes(span)) == Json.Ok(PlanJson(p)))
  }

  /** When the reply's span parses to a plan's dump, that plan is what validation returns. */
  lemma ParsedPlanReturned(reply: string, parse: Json.Parser)
    ensures forall p :: ParsesToPlan(reply, parse, p) ==> ValidatePlan(SafeJson(reply, parse)) == Some(p)
  {
    forall p | ParsesToPlan(reply, parse, p)
      ensures ValidatePlan(SafeJson(reply, parse)) == Some(p)
    {
      ValidateDumpRoundTrip(p);
    }
  }

  /** The reply has a brace span, and `_safe_json` returned what `json.loads` gave for it or for its repaired form. */
  predicate RecoveredByParser(txt: string, parse: Json.Parser) {
    BraceSearch.HasBracePair(txt) &&
    var span := BraceSearch.GreedyMatch(txt).value;
    (parse(span).Ok? && SafeJson(txt, parse) == parse(span).value) ||
    (parse(RepairQuotes(span)).Ok? && SafeJson(txt, parse) == parse(RepairQuotes(span)).value)
  }

  /**
   * The recovery never makes validation fail by itself: when the result of
   * `_safe_json` does not validate, it is an object that `json.loads` did
   * return for the span or for its repaired form.
   */
  lemma OnlyParsedRepliesFailValidation(txt: string, parse: Json.Parser)
    requires ValidatePlan(SafeJson(txt, parse)).None?
    ensures RecoveredByParser(txt, parse)
  {
    if !BraceSearch.HasBracePair(txt) {
      FallbacksValidate("");
    } else {
      var span := BraceSearch.GreedyMatch(txt).value;
      if parse(span).DecodeError? && parse(RepairQuotes(span)).DecodeError? {
        FallbacksValidate(parse(RepairQuotes(span)).message);
      }
    }
  }

  /**
   * The repaired span is still a brace span, and repairing twice is repairing
   * once; a span without single quotes is left as it is, so when it fails to
   * parse the second attempt fails the same way and the result is the
   * parse-error fallback.
   */
  lemma RepairKeepsSpan(txt: string, parse: Json.Parser)
    requires BraceSearch.HasBracePair(txt)
    ensures var span := BraceSearch.GreedyMatch(txt).value;
            var fixed := RepairQuotes(span);
            fixed[0] == '{' && fixed[|fixed| - 1] == '}' && RepairQuotes(fixed) == fixed
            && ((forall i :: 0 <= i < |span| ==> span[i] != '\'') && parse(span).DecodeError? ==>
                  SafeJson(txt, parse) == ParseErrorReply(parse(span).message))
  {
    var span := BraceSearch.GreedyMatch(txt).value;
    var fixed := RepairQuotes(span);
    assert RepairQuotes(fixed) == fixed;
    if forall i :: 0 <= i < |span| ==> span[i] != '\'' {
      assert fixed == span;
    }
  }
}
