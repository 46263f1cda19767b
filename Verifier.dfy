/**
 * The verifier agent: the prompt it builds from an executor result, and how
 * it turns the LLM's reply into a `Verification`, failing closed. The LLM,
 * `json.loads` and Python's `str()` of a UI tree are parameters.
 */
module Verifier {
  import opened Wrappers
  import Json
  import opened Messages
  import Text
  import BraceSearch

  const SystemPrompt: string :=
    "You are a Verifier Agent for Android QA. Compare expected vs current UI state. "
    + "Return ONLY a valid JSON object like this:\n"
    + "{\"passed\": true, \"reason\": \"...\"}\n"
    + "Always include a short but clear explanation of the decision in the 'reason'."

  /** How many characters of the printed UI tree the prompt keeps. */
  const UiTreeLimit: nat := 5000

  /** `s[:n]`: the first `n` characters, or all of `s` when it is shorter. */
  function Truncate(s: string, n: nat): (r: string)
    ensures |r| <= n && r <= s
    ensures |s| <= n ==> r == s
    ensures |s| > n ==> r == s[..n]
  {
    if |s| <= n then s else s[..n]
  }

  /** How Python prints a `bool`. */
  function BoolText(b: bool): string {
    if b then "True" else "False"
  }

  /** How Python prints an optional string. */
  function OptionText(s: Option<string>): string {
    if s.Some? then s.value else "None"
  }

  /**
   * The user prompt of `verify`. `subgoal` is the subgoal as Python prints it
   * and `render` is `str()` of a UI tree.
   */
  function Prompt(goal: string, subgoal: string, result: ExecutorResult, render: UiTree -> string): (r: string)
    ensures "High-level goal: " + goal + "\n" + "Subgoal: " + subgoal + "\n" <= r
    ensures |r| >= |ReturnFormat| && r[|r| - |ReturnFormat|..] == ReturnFormat
  {
    ("High-level goal: " + goal + "\n" + "Subgoal: " + subgoal + "\n")
    + ("Executor success: " + BoolText(result.success) + ", error: " + OptionText(result.error) + "\n"
       + "Current ui_tree (partial): " + Truncate(render(result.observation.uiTree), UiTreeLimit) + "\n")
    + ReturnFormat
  }

  /** The last line of the prompt: the format the reply must take. */
  const ReturnFormat: string := "Return ONLY valid JSON object: {\"passed\": bool, \"reason\": str}"

  /** The number of characters of fixed text in the prompt. */
  const PromptFixedText: nat := 146

  /**
   * However large the UI tree, the prompt grows with it by at most 5000
   * characters: its length is bounded by the goal, the subgoal, the error
   * and the fixed text.
   */
  lemma PromptBounded(goal: string, subgoal: string, result: ExecutorResult, render: UiTree -> string)
    ensures |Prompt(goal, subgoal, result, render)|
              <= |goal| + |subgoal| + |OptionText(result.error)| + UiTreeLimit + |BoolText(false)| + PromptFixedText
  {
    assert |Truncate(render(result.observation.uiTree), UiTreeLimit)| <= UiTreeLimit;
  }

  /** The two messages of a verifier call. */
  function ChatOf(prompt: string): seq<ChatMessage> {
    [ChatMessage("system", SystemPrompt), ChatMessage("user", prompt)]
  }

  /** The strings pydantic reads as `true` and as `false` for a `bool` field (after lower-casing). */
  const TrueWords: set<string> := {"1", "on", "t", "true", "y", "yes"}
  const FalseWords: set<string> := {"0", "off", "f", "false", "n", "no"}

  /** pydantic's lax reading of a JSON value as a `bool`; `None` is a validation error. */
  function AsBool(v: Json.Value): (r: Option<bool>)
    ensures r == Some(true) <==> v == Json.Bool(true) || v == Json.Num(1) || (v.Str? && Text.Lower(v.s) in TrueWords)
    ensures r == Some(false) <==> v == Json.Bool(false) || v == Json.Num(0) || (v.Str? && Text.Lower(v.s) in FalseWords)
  {
    match v
    case Bool(b) => Some(b)
    case Num(n) => if n == 0 then Some(false) else if n == 1 then Some(true) else None
    case Str(s) =>
      var w := Text.Lower(s);
      if w in TrueWords then Some(true) else if w in FalseWords then Some(false) else None
    case _ => None
  }

  /** The optional `expected_state`: missing or `null` is `None`, an object is kept, anything else is an error. */
  function AsExpectedState(fields: map<string, Json.Value>): Option<Option<map<string, Json.Value>>> {
    if "expected_state" !in fields then Some(None)
    else match fields["expected_state"]
      case Null => Some(None)
      case Obj(m) => Some(Some(m))
      case _ => None
  }

  /**
   * `Verification(**data)`: `data` must be an object with a `passed` that reads
   * as a `bool` and a string `reason`; other keys are ignored. `None` stands
   * for the exception it raises.
   */
  function ToVerification(data: Json.Value): (r: Option<Verification>)
    ensures r.Some? ==> data.Obj? && "passed" in data.fields && AsBool(data.fields["passed"]) == Some(r.value.passed)
    ensures r.Some? ==> "reason" in data.fields && data.fields["reason"] == Json.Str(r.value.reason)
  {
    if data.Obj? && "passed" in data.fields && "reason" in data.fields && data.fields["reason"].Str? then
      match (AsBool(data.fields["passed"]), AsExpectedState(data.fields))
      case (Some(passed), Some(expected)) => Some(Verification(passed, data.fields["reason"].s, expected))
      case _ => None
    else None
  }

  /** The fallback result when the reply holds no brace span. */
  const NonJson: Verification := Verification(false, "non-json response", None)

  /** The fallback result when the span does not parse or does not make a `Verification`. */
  const ParseError: Verification := Verification(false, "json parse error", None)

  /**
   * `v` is the verdict read from `content`: "non-json response" when it holds
   * no brace pair; otherwise the verdict built from what its lazy span parses
   * to, or "json parse error" when that fails.
   */
  predicate IsVerdictOf(content: string, parse: Json.Parser, v: Verification) {
    if !BraceSearch.HasBracePair(content) then v == NonJson
    else
      var span := BraceSearch.LazyMatch(content).value;
      if parse(span).Ok? && ToVerification(parse(span).value).Some?
      then v == ToVerification(parse(span).value).value
      else v == ParseError
  }

  /** A passing verdict needs the lazy span of `content` to parse to an object whose `passed` reads as true. */
  predicate PassesOnlyIfSaid(content: string, parse: Json.Parser, v: Verification) {
    v.passed ==>
      BraceSearch.HasBracePair(content) &&
      var span := BraceSearch.LazyMatch(content).value;
      parse(span).Ok? && parse(span).value.Obj? && "passed" in parse(span).value.fields &&
      AsBool(parse(span).value.fields["passed"]) == Some(true)
  }

  /**
   * The second half of `verify`: read a verdict from the LLM's reply. The
   * stripped reply is searched for the shortest brace span at the first `{`;
   * what it parses to is the verdict when it makes a `Verification`, and
   * every failure on the way gives `passed=False`. The result passes only
   * when the parsed object itself says so.
   */
  function ReadVerdict(content: string, parse: Json.Parser): (v: Verification)
    ensures IsVerdictOf(content, parse, v)
    ensures PassesOnlyIfSaid(content, parse, v)
  {
    var stripped := Text.Strip(content);
    StripKeepsLazyMatch(content);
    match BraceSearch.LazyMatch(stripped)
    case None => NonJson
    case Some(span) =>
      match parse(span)
      case DecodeError(_) => ParseError
      case Ok(data) =>
        match ToVerification(data)
        case None => ParseError
        case Some(v) => v
  }

  /** Stripping whitespace does not change the lazy brace match. */
  lemma StripKeepsLazyMatch(s: string)
    ensures BraceSearch.LazyMatch(Text.Strip(s)) == BraceSearch.LazyMatch(s)
  {
    var a, b :| 0 <= a <= b <= |s| && Text.Strip(s) == s[a..b] && Text.StrippedAt(s, a, b);
    forall k | 0 <= k < a || b <= k < |s| ensures s[k] != '{' && s[k] != '}' {
      assert Text.StrippedAt(s, a, b);
      assert Text.IsSpace(s[k]);
    }
    BraceSearch.LazyMatchIgnoresOuterText(s, a, b);
  }

  /**
   * `verify`: ask the LLM about the step and read its verdict from the reply.
   * The step passes only when the reply's brace span parses to an object whose
   * `passed` reads as true.
   */
  function Verify(goal: string, subgoal: string, result: ExecutorResult, render: UiTree -> string,
                  chat: Chat, parse: Json.Parser): (v: Verification)
    ensures IsVerdictOf(chat(ChatOf(Prompt(goal, subgoal, result, render))), parse, v)
    ensures PassesOnlyIfSaid(chat(ChatOf(Prompt(goal, subgoal, result, render))), parse, v)
  {
    ReadVerdict(chat(ChatOf(Prompt(goal, subgoal, result, render))), parse)
  }
}
