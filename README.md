# Android QA agent loop — a Dafny model

This project models the core of a multi-agent QA system for Android apps.
A planner asks an LLM to split a high-level goal into subgoals. An executor
grounds each subgoal in the current UI tree and steps a simulator. A
verifier asks an LLM whether the step achieved the subgoal. A loop drives
the three, replans after a failed verification, and aborts at the third
failure. The model covers:

- `BraceSearch`: the two regular-expression searches that cut a JSON object
  out of an LLM reply. The planner uses the greedy `\{[\s\S]*\}` and the
  verifier the non-greedy `\{[\s\S]*?\}`. Each is specified as
  leftmost-longest or leftmost-shortest over all brace matches.
- `Text`: the string methods the agents use (`lower`, `in`, `strip`, and a
  one-character `replace`).
- `Json` and `Messages`: JSON values and the records exchanged between the
  agents (`PlannerOutput`, `ExecutorResult`, `Verification`, `EpisodeLog`).
- `Planner`: the prompts, `_safe_json` with its quote repair and fallbacks,
  and `PlannerOutput.model_validate` on JSON values.
- `Executor`: the first-match keyword grounding `_select_action`, and the
  `ExecutorAgent` class. Its `Execute` replaces the cached state only when
  the simulator step succeeds.
- `Verifier`: the prompt with its 5000-character tree cut, and the reading
  of the verdict. Every failure on the way gives `passed=False`, and a pass
  needs a parsed object that says so.
- `Loop`: `QALoop.run` as a method with a loop. It is proved against a
  closed-form specification: the log is the prefix of the per-subgoal
  entries that ends at the third failed verification. Each replan request
  carries the log up to the failure it answers.

External services are parameters:
- the LLM is a function from the chat messages to the reply;
- `json.loads` is a function from text to a value or a decode error;
- the simulator's `step` is a function from an action to the next state or
  an exception message;
- Python's `str()` of a UI tree, or of the subgoal and past-step lists, is
  a string or a rendering function.

In `Loop`, the executor, verifier and replanner are the answers they give
for each step.

## Model

| member | source | states |
|---|---|---|
| `BraceSearch.GreedySearch` | agents/planner.py:69 | A match exists iff some `{` precedes some `}`. It is a brace match, and no brace match starts earlier or, at the same start, ends later (leftmost-longest). |
| `BraceSearch.LazySearch` | agents/verifier.py:36 | A match exists iff some `{` precedes some `}`. It is a brace match, and no brace match starts earlier or, at the same start, ends earlier (leftmost-shortest). It holds no `}` before its last character. |
| `BraceSearch.GreedyMatch` | agents/planner.py:69-73 | `match.group(0)` exists exactly when a brace pair exists. It is the slice of the reply at the greedy span, so it starts with `{` and ends with `}`. |
| `BraceSearch.LazyMatch` | agents/verifier.py:36-43 | The matched text exists exactly when a brace pair exists. It is the slice of the reply at the lazy span: it starts with `{`, and its only `}` is its last character. |
| `BraceSearch.LazyWithinGreedy` | agents/verifier.py:36 | The verifier's pattern matches on the same replies as the planner's, at the same start, and ends no later. |
| `BraceSearch.LazyMatchIgnoresOuterText` | agents/verifier.py:36 | Cutting brace-free text off both ends of a reply leaves the lazy match unchanged. |
| `Text.Strip` | agents/verifier.py:36 | `strip()` returns a slice of the input. Everything cut off is whitespace, and the result neither starts nor ends with whitespace. |
| `Verifier.StripKeepsLazyMatch` | agents/verifier.py:36 | Searching `content.strip()` finds the same text as searching `content`. |
| `Planner.TaskLine` | agents/planner.py:25 | The task line is empty exactly when the task is missing or empty; otherwise it is the prefix, the task and a newline. |
| `Planner.PlanPrompt` | agents/planner.py:25-37 | The `plan` prompt starts with the task line. |
| `Planner.ReplanPrompt` | agents/planner.py:47-58 | The `replan` prompt starts with the error line and the past-steps line, followed by the "Original Task: ..." line when a task is given. |
| `Planner.RepairQuotes` | agents/planner.py:79 | The repaired text has the same length. Every single quote becomes a double quote, and every other character is kept. |
| `Planner.SafeJson` | agents/planner.py:66-83 | With no brace pair the result is `{"subgoals": [], "reasoning": "invalid"}`. If the greedy span parses, the result is its value. Otherwise, if the repaired span parses, the result is that value. If neither parses, the result is the parse-error object carrying the second error's message. |
| `Planner.SubgoalOf` | core/messages.py:7 | A JSON value validates as `Dict[str, str]` iff it is an object whose values are all strings. The result dumps back to that value. |
| `Planner.SubgoalsOf` | core/messages.py:7 | A list validates iff each element does. The result has one subgoal per element, each dumping back to its element. |
| `Planner.ValidatePlan` | core/messages.py:6-8 | A validated plan comes from an object with `subgoals` and `reasoning`. It carries that reasoning, and its subgoals dump back to that list. |
| `Planner.ValidateDumpRoundTrip` | core/messages.py:6-8 | Validating the dump of any plan gives the plan back. |
| `Planner.SubgoalRoundTrip` | core/messages.py:7 | Reading a subgoal back from its JSON object gives the same subgoal. |
| `Planner.FallbacksValidate` | agents/planner.py:70-83 | Both fallback objects of `_safe_json` validate, as plans with no subgoals and the fallback reasoning. |
| `Planner.OnlyParsedRepliesFailValidation` | agents/planner.py:63-83 | If `model_validate` fails after `_safe_json`, the reply held a brace pair. The failing value is what `json.loads` returned for the span or for its repaired form. |
| `Planner.RepairKeepsSpan` | agents/planner.py:73-83 | The repaired span still starts with `{` and ends with `}`, and repairing is idempotent. A span without single quotes that fails to parse gives the parse-error object with that failure's message. |
| `Planner.ParsedPlanReturned` | agents/planner.py:63-64 | Suppose the reply's greedy span parses to exactly the dump of a plan (no other keys), at once or after the quote repair. Then validating what `_safe_json` recovers gives that plan. |
| `Planner.ValidateReply` | agents/planner.py:63-64 | The result is `model_validate` of what `_safe_json` recovers, so a recovered value that fails validation gives the `ValidationError`. If the span parses to exactly the dump of a plan, at once or after repair, that plan is returned. A reply with no brace pair gives a plan with no subgoals and the reasoning "invalid". If neither the span nor its repaired form parses, the result is a plan with no subgoals and the reasoning "parse_error: " followed by the second decode error's message. Validation fails only on a value `json.loads` returned for the span or its repaired form. |
| `Planner.Plan` | agents/planner.py:24-45 | The result is `model_validate` of what `_safe_json` recovers from the LLM's reply to the `plan` prompt. If the reply's greedy span parses to exactly the dump of a plan, at once or after repair, `plan` returns that plan. A reply with no brace pair gives a plan with no subgoals and the reasoning "invalid". A span that does not parse, even after repair, gives a plan with no subgoals and the reasoning "parse_error: " plus the second error's message. The `ValidationError` can only come from a value `json.loads` returned. |
| `Planner.Replan` | agents/planner.py:47-64 | The same promises as `plan`, for the reply to the `replan` prompt: the recovered value validated, the plan parsed from the span, the "invalid" and "parse_error: ..." fallbacks, and a `ValidationError` only on a parsed value. |
| `Executor.FirstMatchFrom` | agents/executor.py:21-26 | The index found from a position is the first node at or after it that matches. When there is none, no node from there on matches. |
| `Executor.SelectAction` | agents/executor.py:14-27 | The result is never the empty action. It is `noop` iff no node matches. It is a touch iff there is a first matching node, and then it carries that node's id. |
| `Executor.TextlessNodeIgnored` | agents/executor.py:22 | The empty string occurs in every subgoal. Still, a node with missing or empty text can be inserted anywhere without changing the selected action. |
| `Executor.SelectFromAny` | agents/executor.py:21-27 | For a string subgoal this is the first-match selection. For any other value it raises iff some node from the start position on has non-empty text, with the message `.lower()` gives for that type; when it does not raise, the action is `noop`. |
| `Executor.SelectActionAny` | agents/executor.py:14-27 | `_select_action` on a string subgoal selects as `SelectAction` does. On any other value it raises iff some node has non-empty text, and otherwise selects `noop`. |
| `Executor.DictSubgoalRaises` | core/loop.py:29-31 | The subgoal dictionary the loop passes raises `'dict' object has no attribute 'lower'` whenever some node has text. |
| `Executor.WifiSubgoalNotGrounded` | agents/executor.py:22 | On a screen with a "Wi-Fi" node, the dictionary `{"step": "Open Wi-Fi settings"}` raises, while the step text alone selects a touch on `wifi_toggle`. |
| `Executor.ExecutorAgent.constructor` | agents/executor.py:10-12 | The cached state is the state `reset` returned. |
| `Executor.ExecutorAgent.ExecuteAny` | agents/executor.py:29-46 | `execute` on the value the loop passes. When `_select_action` raises, nothing is stepped, the state is unchanged, and the result carries `success=False`, the old tree, an empty action and the message. Otherwise the selected action is stepped as in `Execute`. Success holds iff selection did not raise and the step succeeded. |
| `Executor.ExecutorAgent.Execute` | agents/executor.py:29-46 | When the step succeeds, the cached state becomes the next state, and the result carries `success=True`, the new tree, the reward, the done flag, the info and the selected action. When the step raises, the state is unchanged, and the result carries `success=False`, the old tree, an empty action and the message. Success holds iff the step succeeded. |
| `Verifier.Truncate` | agents/verifier.py:24 | The cut is a prefix of the text, at most `n` long. It is the whole text when that fits, and exactly the first `n` characters otherwise. |
| `Verifier.Prompt` | agents/verifier.py:20-26 | The prompt starts with the goal line and the subgoal line, and ends with the line fixing the reply's JSON format. |
| `Verifier.PromptBounded` | agents/verifier.py:20-26 | The prompt's length is bounded by the goal, the subgoal, the error, 5000 tree characters and the fixed text, however large the tree. |
| `Verifier.AsBool` | core/messages.py:19 | A JSON value reads as `True` exactly for `true`, `1`, and the strings pydantic accepts as true, in any case. It reads as `False` exactly for `false`, `0`, and the strings pydantic accepts as false. Anything else is an error. |
| `Verifier.ToVerification` | core/messages.py:18-21 | A built verdict comes from an object whose `passed` reads as that boolean and whose `reason` is that string. |
| `Verifier.ReadVerdict` | agents/verifier.py:36-48 | With no brace pair the result is "non-json response". Otherwise it is the parsed object's verdict when that builds one, and "json parse error" with `passed=False` when it does not. A pass needs the reply's span to parse to an object whose `passed` reads as true. |
| `Verifier.Verify` | agents/verifier.py:19-48 | The verdict is the one read from the LLM's reply. With no brace pair it is "non-json response". Otherwise it is the parsed object's verdict when that builds one, and "json parse error" when it does not. A step passes only when the reply's span parses to an object whose `passed` reads as true. |
| `Loop.FinalVerdict` | core/loop.py:64 | The verdict is "passed" iff no logged verification failed, and "failed" otherwise. |
| `Loop.LoggedCountCharacterised` | core/loop.py:47-52 | The loop stops after `n` entries iff there are at most three failures among them, fewer than all entries only with exactly three, and then the `n`-th entry is the third failure. |
| `Loop.LoggedStepsShape` | core/loop.py:29-52 | The log is a prefix of the per-subgoal entries with at most three failures. A log that stops early holds exactly three failures, and then its last step failed. |
| `Loop.AllPassedLogsEverything` | core/loop.py:29-64 | When every verification passes, every subgoal of the initial plan is logged and there is no failure. |
| `Loop.PassedVerdictLogsWholePlan` | core/loop.py:50-64 | A "passed" verdict means every subgoal of the initial plan was logged. |
| `Loop.EarlyFailureContinues` | core/loop.py:47-60 | A failure that is at most the second one does not stop the loop: the next subgoal is still logged. |
| `Loop.Run` | core/loop.py:20-75 | The log holds the goal and the prefix of the entries up to the third failure. One replan request is made per failure, up to two; the `k`-th carries the log up to the `k`-th failure and that failure's reason. The verdict is "passed" iff nothing failed. The supervisor, when present, reviews exactly the returned log. |

## Left out

- The LLM client, the simulator wrapper and its image capture, logging, the supervisor's report writing, the scripts and the tests are not part of this model. The LLM, `json.loads` and the simulator's `step` are parameters, as described above.
- Python's `str()` of dictionaries and lists, which feeds the prompts, is a parameter: a rendering function or a string.
- Case folding and `strip` cover ASCII only; Python's Unicode tables are not modelled.
- JSON numbers are integers; floats are not modelled.
- `json.loads` either returns a value or raises a decode error. Other exceptions are not modelled, such as a `RecursionError` on a deeply nested reply. The first handler of `_safe_json` (agents/planner.py:76) does not catch them, so they would escape `plan` and `replan`.
- Pydantic validation is modelled for the shapes these records use. The string-to-boolean words and 0/1 for `passed` are covered; other lax coercions are not.
- `Planner.ValidatePlan`: states what a validated plan carries and proves the round trip, not the exact set of inputs that fail validation.
- `Verifier.ToVerification`: states what a built verdict carries, not every way `Verification(**data)` can fail (for example an `expected_state` that is not an object).
- `Loop.Run`: the executor, the verifier and the replanner are given as their answers for each step. The effect of the executor's cached state on later steps is folded into those answers. No proof connects `Executor.ExecutorAgent.Execute` to the loop.
- `Loop.Run`: a `ValidationError` from `plan` or `replan`, or an exception from `verify`, would propagate out of `run`. The model takes the initial plan and every replanned plan as given. `Planner.Plan` and `Planner.Replan` return `None` for that case.
- `Executor.ExecutorAgent.Execute`: takes the subgoal as a string, as the method is annotated. What the loop actually passes, a dictionary, is covered by `Executor.SelectActionAny` (see Findings). Node texts that are not strings are not modelled.
- A UI tree whose "nodes" key holds `null`, or a node that is not a dictionary, is not modelled: the UI tree is a list of records. In the source, iterating such a tree raises `TypeError` (agents/executor.py:20-21), which `execute` turns into `success=False` (agents/executor.py:39-46).
- The reward is a real number, and the `info` dictionary is kept as given.

## Findings

| source | as written | input that shows it | evidently intended | confidence | as-written member | corrected member |
|---|---|---|---|---|---|---|
| core/loop.py:31 | The loop passes each subgoal dictionary to `execute`, which is annotated to take a string. `_select_action` then calls `subgoal.lower()` (agents/executor.py:22), which raises `AttributeError` as soon as some node has non-empty text, so `execute` reports `success=False` and no action is taken (`Executor.ExecutorAgent.ExecuteAny`). | A UI tree with one node `{"text": "Wi-Fi", "id": "wifi_toggle"}` and the subgoal `{"step": "Open Wi-Fi settings"}` | Ground the subgoal's step text, which would select a touch on `wifi_toggle` | not executed; high | `Executor.WifiSubgoalNotGrounded` | `Executor.SelectAction` |
