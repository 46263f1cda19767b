/**
 * The records the agents exchange (the pydantic models of core/messages.py)
 * and the simulator state the executor caches (`AndroidState`).
 * The Python dictionaries with a fixed set of keys become datatypes;
 * free-form ones stay `Json.Value`s.
 */
module Messages {
  import opened Wrappers
  import Json

  /** A subgoal of a plan: a dictionary of strings such as `{"step": ..., "reference": ...}`. */
  type Subgoal = map<string, string>

  /** A subgoal as the JSON object it is read from and dumped to. */
  function SubgoalJson(s: Subgoal): Json.Value {
    Json.Obj(map k | k in s :: Json.Str(s[k]))
  }

  /** `PlannerOutput`: the subgoals of a plan and the planner's reasoning. */
  datatype PlannerOutput = PlannerOutput(subgoals: seq<Subgoal>, reasoning: string)

  /**
   * One element of the UI tree's `nodes` list. `text` is `None` when the key
   * is missing or holds `null`; `id` is `None` when the key is missing.
   */
  datatype UiNode = UiNode(text: Option<string>, id: Option<Json.Value>)

  /** A UI tree; `nodes` is `None` when the tree has no `nodes` key. */
  datatype UiTree = UiTree(nodes: Option<seq<UiNode>>)

  /** `AndroidState`: what the environment returns from `reset` and `step`. */
  datatype AndroidState = AndroidState(uiTree: UiTree, screenshotPath: Option<string>)

  /**
   * The action dictionary the executor builds: `{"action_type": "touch", "element_id": id}`,
   * `{"action_type": "noop"}`, or the empty dictionary `{}` recorded after a failure.
   */
  datatype Action = Touch(elementId: Json.Value) | Noop | NoAction

  /** The `reward`, `done` and `info` entries an observation holds after a successful step. */
  datatype StepInfo = StepInfo(reward: real, done: bool, info: map<string, Json.Value>)

  /** `ExecutorResult.observation`: the UI tree, plus the step's reward, done flag and info when the step succeeded. */
  datatype Observation = Observation(uiTree: UiTree, step: Option<StepInfo>)

  /** `ExecutorResult`. */
  datatype ExecutorResult =
    ExecutorResult(success: bool, observation: Observation, actionTaken: Action, error: Option<string>)

  /** `Verification`. */
  datatype Verification =
    Verification(passed: bool, reason: string, expectedState: Option<map<string, Json.Value>>)

  /** One entry of `EpisodeLog.steps`: `{"subgoal": ..., "executor": ..., "verifier": ...}`. */
  datatype StepLog = StepLog(subgoal: Subgoal, executor: ExecutorResult, verifier: Verification)

  /** `EpisodeLog`. */
  datatype EpisodeLog = EpisodeLog(plannerGoal: string, steps: seq<StepLog>, finalVerdict: string)

  /** `ChatMessage` of core/llm.py. */
  datatype ChatMessage = ChatMessage(role: string, content: string)

  /** The LLM client's `chat`: an opaque function from the message list to the reply text. */
  type Chat = seq<ChatMessage> -> string
}
