/**
 * The executor agent: grounding a subgoal in the cached UI tree by a
 * first-match keyword search, and one execution step against the simulator,
 * which replaces the cached state only when the step succeeds.
 * The simulator's `step` is a parameter: a function from the action to what
 * the call returns or the message of the exception it raises.
 */
module Executor {
  import opened Wrappers
  import Json
  import opened Messages
  import Text

  /** `ui_tree.get("nodes", [])`. */
  function Nodes(tree: UiTree): seq<UiNode> {
    if tree.nodes.Some? then tree.nodes.value else []
  }

  /** `"text" in node and node["text"]`: the text is present and not empty. */
  predicate HasText(n: UiNode) {
    n.text.Some? && n.text.value != ""
  }

  /** The node's lower-cased text occurs in the lower-cased subgoal. */
  predicate Matches(n: UiNode, subgoal: string) {
    HasText(n) && Text.IsSubstring(Text.Lower(n.text.value), Text.Lower(subgoal))
  }

  /** `node.get("id")`: the id, or `None` (JSON `null`) when the key is missing. */
  function IdOf(n: UiNode): Json.Value {
    if n.id.Some? then n.id.value else Json.Null
  }

  /** `i` is the first node, in list order, that matches the subgoal. */
  predicate IsFirstMatch(nodes: seq<UiNode>, subgoal: string, i: int) {
    0 <= i < |nodes| && Matches(nodes[i], subgoal) && forall k :: 0 <= k < i ==> !Matches(nodes[k], subgoal)
  }

  /** The index of the first node at or after `from` that matches the subgoal. */
  function FirstMatchFrom(nodes: seq<UiNode>, subgoal: string, from: nat): (r: Option<nat>)
    requires from <= |nodes|
    ensures r.Some? ==> from <= r.value < |nodes| && Matches(nodes[r.value], subgoal)
    ensures r.Some? ==> forall k :: from <= k < r.value ==> !Matches(nodes[k], subgoal)
    ensures r.None? ==> forall k :: from <= k < |nodes| ==> !Matches(nodes[k], subgoal)
    decreases |nodes| - from
  {
    if from == |nodes| then None
    else if Matches(nodes[from], subgoal) then Some(from)
    else FirstMatchFrom(nodes, subgoal, from + 1)
  }

  /**
   * `_select_action` for a string subgoal: a touch on the first node whose
   * non-empty text occurs, case-insensitively, in the subgoal, carrying that
   * node's id; `noop` when no node matches or the tree has no `nodes`.
   */
  function SelectAction(tree: UiTree, subgoal: string): (a: Action)
    ensures !a.NoAction?
    ensures a.Noop? <==> forall k :: 0 <= k < |Nodes(tree)| ==> !Matches(Nodes(tree)[k], subgoal)
    ensures a.Touch? <==> exists i :: IsFirstMatch(Nodes(tree), subgoal, i)
    ensures forall i :: IsFirstMatch(Nodes(tree), subgoal, i) ==> a == Touch(IdOf(Nodes(tree)[i]))
  {
    var nodes := Nodes(tree);
    match FirstMatchFrom(nodes, subgoal, 0)
    case None => Noop
    case Some(i) =>
      assert IsFirstMatch(nodes, subgoal, i);
      Touch(IdOf(nodes[i]))
  }

  /**
   * A node whose text is missing or empty never matches, although the empty
   * string occurs in every subgoal: putting such a node anywhere in the list
   * leaves the selected action unchanged.
   */
  lemma TextlessNodeIgnored(nodes: seq<UiNode>, p: nat, n: UiNode, subgoal: string)
    requires p <= |nodes|
    requires n.text == None || n.text == Some("")
    ensures Text.IsSubstring("", Text.Lower(subgoal))
    ensures SelectAction(UiTree(Some(nodes[..p] + [n] + nodes[p..])), subgoal) == SelectAction(UiTree(Some(nodes)), subgoal)
  {
    assert Text.OccursAt("", Text.Lower(subgoal), 0);
    var longer := nodes[..p] + [n] + nodes[p..];
    assert !Matches(n, subgoal);
    var a, b := SelectAction(UiTree(Some(longer)), subgoal), SelectAction(UiTree(Some(nodes)), subgoal);
    if i :| IsFirstMatch(nodes, subgoal, i) {
      var j := if i < p then i else i + 1;
      assert longer[j] == nodes[i];
      forall k | 0 <= k < j ensures !Matches(longer[k], subgoal) {
        if k < p { assert longer[k] == nodes[k]; } else if k > p { assert longer[k] == nodes[k - 1]; }
      }
      assert IsFirstMatch(longer, subgoal, j);
    }
  }

  /** What `_select_action` does for a subgoal of any JSON type: an action, or the message of the exception it raises. */
  datatype Selection = Selected(action: Action) | Raised(message: string)

  /** The message of the `AttributeError` that `subgoal.lower()` raises on a value that is not a string. */
  function NoLowerMessage(v: Json.Value): string
    requires !v.Str?
  {
    match v
    case Null => "'NoneType' object has no attribute 'lower'"
    case Bool(_) => "'bool' object has no attribute 'lower'"
    case Num(_) => "'int' object has no attribute 'lower'"
    case Str(_) => assert false; ""
    case Arr(_) => "'list' object has no attribute 'lower'"
    case Obj(_) => "'dict' object has no attribute 'lower'"
  }

  /**
   * The loop of `_select_action` run on whatever value it is given, from node
   * `from` on: `subgoal.lower()` is evaluated only for nodes with non-empty
   * text, and raises when the subgoal is not a string.
   */
  function SelectFromAny(nodes: seq<UiNode>, subgoal: Json.Value, from: nat): (r: Selection)
    requires from <= |nodes|
    ensures subgoal.Str? ==> r == Selected(match FirstMatchFrom(nodes, subgoal.s, from)
                                          case None => Noop
                                          case Some(i) => Touch(IdOf(nodes[i])))
    ensures !subgoal.Str? ==> (r.Raised? <==> exists k :: from <= k < |nodes| && HasText(nodes[k]))
    ensures r.Raised? ==> r.message == NoLowerMessage(subgoal)
    ensures !subgoal.Str? && r.Selected? ==> r.action == Noop
    decreases |nodes| - from
  {
    if from == |nodes| then Selected(Noop)
    else if !HasText(nodes[from]) then SelectFromAny(nodes, subgoal, from + 1)
    else match subgoal
      case Str(s) =>
        if Text.IsSubstring(Text.Lower(nodes[from].text.value), Text.Lower(s)) then Selected(Touch(IdOf(nodes[from])))
        else SelectFromAny(nodes, subgoal, from + 1)
      case _ => Raised(NoLowerMessage(subgoal))
  }

  /** `_select_action` as written, applied to the value the caller passes. */
  function SelectActionAny(tree: UiTree, subgoal: Json.Value): (r: Selection)
    ensures subgoal.Str? ==> r == Selected(SelectAction(tree, subgoal.s))
    ensures !subgoal.Str? ==> (r.Raised? <==> exists k :: 0 <= k < |Nodes(tree)| && HasText(Nodes(tree)[k]))
    ensures !subgoal.Str? && r.Selected? ==> r.action == Noop
  {
    SelectFromAny(Nodes(tree), subgoal, 0)
  }

  /**
   * `_select_action` given a subgoal dictionary, which is what the loop hands
   * to `execute`, raises as soon as the tree has a node with non-empty text.
   */
  lemma DictSubgoalRaises(tree: UiTree, s: Subgoal)
    requires exists k :: 0 <= k < |Nodes(tree)| && HasText(Nodes(tree)[k])
    ensures SelectActionAny(tree, SubgoalJson(s)) == Raised("'dict' object has no attribute 'lower'")
  {
    assert SubgoalJson(s).Obj?;
  }

  /**
   * On a screen with a "Wi-Fi" node, the subgoal `{"step": "Open Wi-Fi settings"}`
   * raises, while its text alone selects a touch on that node.
   */
  lemma WifiSubgoalNotGrounded()
    ensures var tree := UiTree(Some([UiNode(Some("Wi-Fi"), Some(Json.Str("wifi_toggle")))]));
            SelectActionAny(tree, SubgoalJson(map["step" := "Open Wi-Fi settings"]))
              == Raised("'dict' object has no attribute 'lower'")
            && SelectAction(tree, "Open Wi-Fi settings") == Touch(Json.Str("wifi_toggle"))
  {
    var node := UiNode(Some("Wi-Fi"), Some(Json.Str("wifi_toggle")));
    var tree := UiTree(Some([node]));
    assert Nodes(tree)[0] == node;
    assert HasText(Nodes(tree)[0]);
    DictSubgoalRaises(tree, map["step" := "Open Wi-Fi settings"]);
    WifiMatches();
    assert IsFirstMatch(Nodes(tree), "Open Wi-Fi settings", 0);
  }

  lemma WifiMatches()
    ensures Text.IsSubstring(Text.Lower("Wi-Fi"), Text.Lower("Open Wi-Fi settings"))
  {
    var p, s := Text.Lower("Wi-Fi"), Text.Lower("Open Wi-Fi settings");
    assert s[5..10] == p;
    assert Text.OccursAt(p, s, 5);
  }

  /** What the simulator's `step` does with an action: the next state, reward, done flag and info, or an exception's message. */
  datatype StepOutcome =
    | Stepped(next: AndroidState, reward: real, done: bool, info: map<string, Json.Value>)
    | StepFailed(message: string)

  /**
   * What stepping `action` from state `before` leaves: on success the next
   * state, and a result with the new tree, the step's reward, flag and info,
   * and the action; when the step raises, the state `before`, and a result
   * with its tree, an empty action and the message.
   */
  predicate StepResult(before: AndroidState, action: Action, outcome: StepOutcome, after: AndroidState, r: ExecutorResult) {
    match outcome
    case Stepped(next, reward, done, info) =>
      after == next &&
      r == ExecutorResult(true, Observation(next.uiTree, Some(StepInfo(reward, done, info))), action, None)
    case StepFailed(message) =>
      after == before &&
      r == ExecutorResult(false, Observation(before.uiTree, None), NoAction, Some(message))
  }

  /** `ExecutorAgent`: the cached simulator state and one execution step. */
  class ExecutorAgent {
    var state: AndroidState

    /** `__init__`: the cached state is what the environment's `reset` returned. */
    constructor (reset: AndroidState)
      ensures state == reset
    {
      state := reset;
    }

    /**
     * `execute` as the loop calls it, on whatever value it is given. When
     * `_select_action` raises, nothing is stepped, the state is kept and the
     * result carries the message; otherwise the selected action is stepped.
     */
    method ExecuteAny(subgoal: Json.Value, step: Action -> StepOutcome) returns (r: ExecutorResult)
      modifies this
      ensures match SelectActionAny(old(state).uiTree, subgoal)
              case Raised(message) =>
                state == old(state) &&
                r == ExecutorResult(false, Observation(state.uiTree, None), NoAction, Some(message))
              case Selected(a) => StepResult(old(state), a, step(a), state, r)
      ensures r.success <==> (SelectActionAny(old(state).uiTree, subgoal).Selected? &&
                              step(SelectActionAny(old(state).uiTree, subgoal).action).Stepped?)
    {
      match SelectActionAny(state.uiTree, subgoal)
      case Raised(message) =>
        r := ExecutorResult(false, Observation(state.uiTree, None), NoAction, Some(message));
      case Selected(action) =>
        r := Step(action, step);
    }

    /**
     * `execute`: select an action on the cached tree and step the simulator.
     * On success the cached state becomes the new state and the result carries
     * the action and the new tree; when the step raises, the state is kept and
     * the result carries the message, an empty action and the old tree.
     */
    method Execute(subgoal: string, step: Action -> StepOutcome) returns (r: ExecutorResult)
      modifies this
      ensures StepResult(old(state), SelectAction(old(state).uiTree, subgoal),
                         step(SelectAction(old(state).uiTree, subgoal)), state, r)
      ensures r.success <==> step(SelectAction(old(state).uiTree, subgoal)).Stepped?
    {
      r := Step(SelectAction(state.uiTree, subgoal), step);
    }

    /** The `try` body after the action is chosen: step the simulator, and keep the new state only on success. */
    method Step(action: Action, step: Action -> StepOutcome) returns (r: ExecutorResult)
      modifies this
      ensures StepResult(old(state), action, step(action), state, r)
      ensures r.success <==> step(action).Stepped?
    {
      match step(action)
      case Stepped(next, reward, done, info) =>
        state := next;
        r := ExecutorResult(true, Observation(next.uiTree, Some(StepInfo(reward, done, info))), action, None);
      case StepFailed(message) =>
        r := ExecutorResult(false, Observation(state.uiTree, None), NoAction, Some(message));
    }
  }
}
