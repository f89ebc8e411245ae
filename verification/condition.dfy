// The condition action of action_plugins/condition/__init__.py: a list of
// conditions combined by All or Any that selects the "true" or the "false"
// actions. Each condition watches a list of input events through a
// comparator whose class depends on the input type. The comparators
// themselves (comparator.py) are not part of this model: a comparator is an
// object of a given class, and what each condition decides about a value
// enters the functor as a list of verdicts.
module ConditionPlugin {
  import opened PyCore
  import opened GremlinTypes
  import Profiles
  import BaseClasses
  import opened EventHandling

  // ---------------------------------------------------------------------
  // Comparators

  /** The three comparator classes a condition can hold. */
  datatype ComparatorKind = RangeComparator | PressedComparator | DirectionComparator

  /** A comparator object; `create_default_comparator` makes a new one. */
  class Comparator {
    const kind: ComparatorKind

    constructor(kind: ComparatorKind)
      ensures this.kind == kind
    {
      this.kind := kind;
    }
  }

  /**
   * `comparator_map`: range for an axis, pressed for a button or a key,
   * direction for a hat; a mouse input has no entry (KeyError).
   */
  function ComparatorFor(t: InputType): (r: Result<ComparatorKind>)
    ensures r.Err? <==> t == Mouse
    ensures r.Err? ==> r.fault == KeyError
    ensures t == JoystickAxis ==> r == Ok(RangeComparator)
    ensures t == JoystickButton || t == Keyboard ==> r == Ok(PressedComparator)
    ensures t == JoystickHat ==> r == Ok(DirectionComparator)
  {
    match t
    case JoystickAxis => Ok(RangeComparator)
    case JoystickButton => Ok(PressedComparator)
    case JoystickHat => Ok(DirectionComparator)
    case Keyboard => Ok(PressedComparator)
    case Mouse => Err(KeyError)
  }

  // ---------------------------------------------------------------------
  // Event sets

  /** `set(events)`: the hash keys of the events; TypeError if one cannot be hashed. */
  function KeySet(events: seq<Event>): (r: Result<set<EventKey>>)
    ensures r.Err? <==> exists i :: 0 <= i < |events| && HashKey(events[i]).Err?
    ensures r.Err? ==> r.fault == TypeError
    ensures r.Ok? ==> forall k :: k in r.value <==> exists i :: 0 <= i < |events| && HashKey(events[i]) == Ok(k)
    decreases |events|
  {
    if events == [] then Ok({})
    else
      var rest := KeySet(events[1..]);
      assert forall i :: 1 <= i < |events| ==> events[1..][i - 1] == events[i];
      match HashKey(events[0])
      case Err(f) => Err(f)
      case Ok(k) =>
        match rest
        case Err(f) => Err(f)
        case Ok(ks) =>
          assert forall j :: 0 <= j < |events[1..]| ==> events[1..][j] == events[j + 1];
          Ok({k} + ks)
  }

  /** Every input of `a` also in `b`: `a` cannot fail where `b` succeeds, and its set is contained. */
  lemma KeySetMonotone(a: seq<Event>, b: seq<Event>)
    requires forall e :: e in a ==> e in b
    ensures KeySet(a).Err? ==> KeySet(b).Err?
    ensures KeySet(a).Ok? && KeySet(b).Ok? ==> KeySet(a).value <= KeySet(b).value
  {
    if KeySet(a).Err? {
      var i :| 0 <= i < |a| && HashKey(a[i]).Err?;
      assert a[i] in b;
      var j :| 0 <= j < |b| && b[j] == a[i];
    } else if KeySet(b).Ok? {
      forall k | k in KeySet(a).value ensures k in KeySet(b).value {
        var i :| 0 <= i < |a| && HashKey(a[i]) == Ok(k);
        assert a[i] in b;
        var j :| 0 <= j < |b| && b[j] == a[i];
      }
    }
  }

  /** Input lists holding the same inputs in another order or with repeats have the same set. */
  lemma KeySetIgnoresOrder(a: seq<Event>, b: seq<Event>)
    requires forall e :: e in a <==> e in b
    ensures KeySet(a) == KeySet(b)
  {
    KeySetMonotone(a, b);
    KeySetMonotone(b, a);
    if KeySet(a).Ok? {
      assert KeySet(a).value == KeySet(b).value;
    }
  }

  /** `len(set(input_types)) > 1`: some input's type differs from the first one's. */
  predicate MixedTypes(data: seq<Event>)
  {
    exists i :: 0 <= i < |data| && data[i].eventType != data[0].eventType
  }

  /** Mixed exactly when two inputs have different types. */
  lemma MixedTypesIffTwoTypes(data: seq<Event>)
    ensures MixedTypes(data) <==> exists i, j :: 0 <= i < |data| && 0 <= j < |data| && data[i].eventType != data[j].eventType
  {
    if exists i, j :: 0 <= i < |data| && 0 <= j < |data| && data[i].eventType != data[j].eventType {
      var i, j :| 0 <= i < |data| && 0 <= j < |data| && data[i].eventType != data[j].eventType;
      if data[i].eventType == data[0].eventType {
        assert data[j].eventType != data[0].eventType;
      }
    }
  }

  // ---------------------------------------------------------------------
  // Conditions

  datatype ConditionType = JoystickCondition | KeyboardCondition | CurrentInputCondition

  /**
   * One condition: `AbstractCondition` and its three subclasses, the
   * subclass being `variant`.
   */
  class Condition {
    /** Which of KeyboardCondition, JoystickCondition and CurrentInputCondition this is. */
    const variant: ConditionType
    /** `_condition_type`. */
    var conditionType: Option<ConditionType>
    /** `_comparator`; null is None. */
    var comparator: Comparator?
    /** `_inputs`. */
    var inputs: seq<Event>

    /** Each subclass sets its own condition type; no comparator, no inputs yet. */
    constructor(variant: ConditionType)
      ensures this.variant == variant && conditionType == Some(variant)
      ensures comparator == null && inputs == []
      ensures !IsValid()
    {
      this.variant := variant;
      conditionType := Some(variant);
      comparator := null;
      inputs := [];
    }

    /** `is_valid`: a condition type, a comparator and at least one input. */
    predicate IsValid()
      reads this
      ensures IsValid() ==> conditionType.Some? && comparator != null && inputs != []
      ensures conditionType.Some? && comparator != null && inputs != [] ==> IsValid()
    {
      conditionType.Some? && comparator != null && |inputs| > 0
    }

    /**
     * `_create_comparator`: a new default comparator of the class the input
     * type needs, unless the current one already is of that class (then it
     * is kept, settings and all).
     */
    method CreateComparator(t: InputType) returns (o: Outcome)
      modifies this
      ensures conditionType == old(conditionType) && inputs == old(inputs)
      ensures o.Raised? <==> t == Mouse
      ensures o.Raised? ==> o.fault == KeyError && comparator == old(comparator)
      ensures o.Done? ==> comparator != null && Ok(comparator.kind) == ComparatorFor(t)
      ensures o.Done? && old(comparator) != null && Ok(old(comparator).kind) == ComparatorFor(t) ==> comparator == old(comparator)
      ensures o.Done? && (old(comparator) == null || Ok(old(comparator).kind) != ComparatorFor(t)) ==> fresh(comparator)
    {
      var kind := ComparatorFor(t);
      if kind.Err? {
        return Raised(kind.fault);
      }
      if comparator == null || comparator.kind != kind.value {
        comparator := new Comparator(kind.value);
      }
      return Done;
    }

    /**
     * `_update_inputs`: takes the new list only when it holds a different
     * set of inputs (by event identity); TypeError if an event cannot be
     * hashed.
     */
    method UpdateInputs(data: seq<Event>) returns (o: Outcome)
      modifies this
      ensures conditionType == old(conditionType) && comparator == old(comparator)
      ensures o.Raised? <==> KeySet(data).Err? || KeySet(old(inputs)).Err?
      ensures o.Raised? ==> o.fault == TypeError && inputs == old(inputs)
      ensures o.Done? && KeySet(data) != KeySet(old(inputs)) ==> inputs == data
      ensures o.Done? && KeySet(data) == KeySet(old(inputs)) ==> inputs == old(inputs)
    {
      var incoming := KeySet(data);
      if incoming.Err? {
        return Raised(incoming.fault);
      }
      var current := KeySet(inputs);
      if current.Err? {
        return Raised(current.fault);
      }
      if incoming.value != current.value {
        inputs := data;
      }
      return Done;
    }

    /**
     * `KeyboardCondition.updateInputs`: GremlinError for mixed types or a
     * non-keyboard input. The first type is read before the list is checked
     * for emptiness, so an empty list raises IndexError and the comparator
     * is never cleared. Otherwise the comparator becomes a pressed one if it
     * is not already, and the inputs are updated.
     */
    method UpdateKeyboardInputs(data: seq<Event>) returns (o: Outcome)
      modifies this
      ensures conditionType == old(conditionType)
      ensures MixedTypes(data) ==> o == Raised(GremlinError) && comparator == old(comparator) && inputs == old(inputs)
      ensures data == [] ==> o == Raised(IndexError) && comparator == old(comparator) && inputs == old(inputs)
      ensures data != [] && !MixedTypes(data) && data[0].eventType != Keyboard ==>
                o == Raised(GremlinError) && comparator == old(comparator) && inputs == old(inputs)
      ensures data != [] && !MixedTypes(data) && data[0].eventType == Keyboard ==>
                && comparator != null && comparator.kind == PressedComparator
                && (old(comparator) != null && old(comparator).kind == PressedComparator ==> comparator == old(comparator))
                && (o.Raised? <==> KeySet(data).Err? || KeySet(old(inputs)).Err?)
                && (o.Raised? ==> o.fault == TypeError && inputs == old(inputs))
                && (o.Done? ==> inputs == if KeySet(data) != KeySet(old(inputs)) then data else old(inputs))
      ensures o.Done? ==> data != [] && forall i :: 0 <= i < |data| ==> data[i].eventType == Keyboard
    {
      if data != [] && MixedTypes(data) {
        return Raised(GremlinError);
      } else if data == [] {
        return Raised(IndexError);
      } else if data[0].eventType != Keyboard {
        return Raised(GremlinError);
      }
      if comparator == null || comparator.kind != PressedComparator {
        comparator := new Comparator(PressedComparator);
      }
      o := UpdateInputs(data);
    }

    /**
     * `JoystickCondition.updateInputs`: GremlinError for mixed types; an
     * empty list clears the comparator, otherwise the first input's type
     * picks it (KeyError for a mouse input); then the inputs are updated.
     */
    method UpdateJoystickInputs(data: seq<Event>) returns (o: Outcome)
      modifies this
      ensures conditionType == old(conditionType)
      ensures MixedTypes(data) ==> o == Raised(GremlinError) && comparator == old(comparator) && inputs == old(inputs)
      ensures data == [] ==> comparator == null
      ensures data != [] && !MixedTypes(data) && data[0].eventType == Mouse ==>
                o == Raised(KeyError) && comparator == old(comparator) && inputs == old(inputs)
      ensures data != [] && !MixedTypes(data) && data[0].eventType != Mouse ==>
                comparator != null && Ok(comparator.kind) == ComparatorFor(data[0].eventType)
      ensures (data == [] || (!MixedTypes(data) && data[0].eventType != Mouse)) ==>
                && (o.Raised? <==> KeySet(data).Err? || KeySet(old(inputs)).Err?)
                && (o.Raised? ==> o.fault == TypeError && inputs == old(inputs))
                && (o.Done? ==> inputs == if KeySet(data) != KeySet(old(inputs)) then data else old(inputs))
    {
      if data != [] && MixedTypes(data) {
        return Raised(GremlinError);
      }
      if data == [] {
        comparator := null;
      } else {
        o := CreateComparator(data[0].eventType);
        if o.Raised? {
          return;
        }
      }
      o := UpdateInputs(data);
    }

    /** `CurrentInputCondition.set_input_type`. */
    method SetInputType(t: InputType) returns (o: Outcome)
      modifies this
      ensures conditionType == old(conditionType) && inputs == old(inputs)
      ensures o.Raised? <==> t == Mouse
      ensures o.Raised? ==> o.fault == KeyError
      ensures o.Done? ==> comparator != null && Ok(comparator.kind) == ComparatorFor(t)
    {
      o := CreateComparator(t);
    }

    /**
     * `set_condition_type`: a current-input condition takes the new type;
     * keyboard and joystick conditions ignore it.
     */
    method SetConditionType(t: ConditionType)
      modifies this
      ensures comparator == old(comparator) && inputs == old(inputs)
      ensures conditionType == if variant == CurrentInputCondition then Some(t) else old(conditionType)
    {
      if variant == CurrentInputCondition && conditionType != Some(t) {
        conditionType := Some(t);
      }
    }
  }

  // ---------------------------------------------------------------------
  // The action data and its functor

  /**
   * `LogicalOperator`; `OtherOperator` stands for any value that is
   * neither All nor Any.
   */
  datatype LogicalOperator = All | Any | OtherOperator

  /**
   * `_condition_truth_state` over the conditions' verdicts: all of them for
   * All (true when there are none), any of them for Any (false when there
   * are none). For another operator the error message reads
   * `data._logical_operator`, an attribute the data does not have, so the
   * call raises AttributeError.
   */
  function TruthState(op: LogicalOperator, outcomes: seq<bool>): (r: Result<bool>)
    ensures r.Err? <==> op == OtherOperator
    ensures r.Err? ==> r.fault == AttributeError
    ensures op == All ==> r == Ok(forall i :: 0 <= i < |outcomes| ==> outcomes[i])
    ensures op == Any ==> r == Ok(exists i :: 0 <= i < |outcomes| && outcomes[i])
    decreases |outcomes|
  {
    match op
    case OtherOperator => Err(AttributeError)
    case All =>
      if outcomes == [] then Ok(true)
      else
        var rest := TruthState(All, outcomes[1..]).value;
        assert forall i :: 1 <= i < |outcomes| ==> outcomes[1..][i - 1] == outcomes[i];
        Ok(outcomes[0] && rest)
    case Any =>
      if outcomes == [] then Ok(false)
      else
        var rest := TruthState(Any, outcomes[1..]).value;
        assert forall i :: 1 <= i < |outcomes| ==> outcomes[1..][i - 1] == outcomes[i];
        Ok(outcomes[0] || rest)
  }

  /** `ConditionData`: the operator, the two branches, and the conditions. */
  class ConditionData {
    var activationMode: ActionActivationMode
    /** `behavior_type`. */
    var behaviorType: InputType
    /** `logical_operator`. */
    var logicalOperator: LogicalOperator
    /** `true_actions`. */
    var trueActions: seq<Profiles.LibraryAction>
    /** `false_actions`. */
    var falseActions: seq<Profiles.LibraryAction>
    var conditions: seq<Condition>

    /**
     * A new condition action combines with All and has no actions and no
     * conditions; its one property, ActivateOnBoth, makes it run on press
     * and on release.
     */
    constructor(behaviorType: InputType)
      ensures this.behaviorType == behaviorType && activationMode == Both
      ensures logicalOperator == All && trueActions == [] && falseActions == [] && conditions == []
    {
      var m := BaseClasses.InitialActivation([ActivateOnBoth]);
      activationMode := m;
      this.behaviorType := behaviorType;
      logicalOperator := All;
      trueActions := [];
      falseActions := [];
      conditions := [];
    }

    /** `_valid_selectors`. */
    function ValidSelectors(): (r: seq<string>)
      ensures |r| == 2 && "true" in r && "false" in r
    {
      ["true", "false"]
    }

    /** `_get_container`: the branch a selector names; None for any other selector. */
    function GetContainer(selector: string): (r: Option<seq<Profiles.LibraryAction>>)
      reads this
      ensures r.Some? <==> selector in ValidSelectors()
      ensures selector == "true" ==> r == Some(trueActions)
      ensures selector == "false" ==> r == Some(falseActions)
    {
      if selector == "true" then Some(trueActions)
      else if selector == "false" then Some(falseActions)
      else None
    }
  }

  /** `ConditionFunctor`: the data and the branch functors built with it. */
  class ConditionFunctor {
    const data: ConditionData
    /** `functors["true"]`. */
    const onTrue: seq<Profiles.LibraryAction>
    /** `functors["false"]`. */
    const onFalse: seq<Profiles.LibraryAction>

    constructor(data: ConditionData)
      ensures this.data == data && onTrue == data.trueActions && onFalse == data.falseActions
    {
      this.data := data;
      onTrue := data.trueActions;
      onFalse := data.falseActions;
    }

    /**
     * `__call__` with the value's current state and each condition's
     * verdict: nothing runs unless the activation gate lets it; then the
     * true branch if the conditions hold and the false branch otherwise.
     */
    function Call(current: InputValue, outcomes: seq<bool>): (r: Result<seq<Profiles.LibraryAction>>)
      reads this, data
      ensures BaseClasses.ShouldExecute(data.activationMode, current).Err? ==> r == Err(GremlinError)
      ensures BaseClasses.ShouldExecute(data.activationMode, current) == Ok(false) ==> r == Ok([])
      ensures BaseClasses.ShouldExecute(data.activationMode, current) == Ok(true) ==>
                match TruthState(data.logicalOperator, outcomes)
                case Err(f) => r == Err(f)
                case Ok(holds) => r == Ok(if holds then onTrue else onFalse)
    {
      match BaseClasses.ShouldExecute(data.activationMode, current)
      case Err(f) => Err(f)
      case Ok(run) =>
        if !run then Ok([])
        else
          match TruthState(data.logicalOperator, outcomes)
          case Err(f) => Err(f)
          case Ok(holds) => Ok(if holds then onTrue else onFalse)
    }

    /** With the default activation (Both) and operator (All), the true branch runs exactly when every verdict holds. */
    lemma DefaultRunsTrueBranchIffAll(current: InputValue, outcomes: seq<bool>)
      requires data.activationMode == Both && data.logicalOperator == All
      ensures Call(current, outcomes) == Ok(if forall i :: 0 <= i < |outcomes| ==> outcomes[i] then onTrue else onFalse)
    {
    }
  }

  /** `ConditionModel`: the editing operations of the condition's UI. */
  class ConditionModel {
    const data: ConditionData

    constructor(data: ConditionData)
      ensures this.data == data
    {
      this.data := data;
    }

    /**
     * `addCondition`: appends a new condition of the given type; a
     * current-input condition first gets the comparator for the action's
     * behavior type (KeyError for a mouse, and then nothing is added).
     */
    method AddCondition(t: ConditionType) returns (o: Outcome, c: Condition?)
      modifies data
      ensures data.logicalOperator == old(data.logicalOperator) && data.behaviorType == old(data.behaviorType)
      ensures o.Raised? <==> t == CurrentInputCondition && data.behaviorType == Mouse
      ensures o.Raised? ==> o.fault == KeyError && data.conditions == old(data.conditions)
      ensures o.Done? ==> c != null && fresh(c) && c.variant == t && c.inputs == []
                          && data.conditions == old(data.conditions) + [c]
      ensures o.Done? && t != CurrentInputCondition ==> c.comparator == null
      ensures o.Done? && t == CurrentInputCondition ==>
                c.comparator != null && Ok(c.comparator.kind) == ComparatorFor(data.behaviorType)
    {
      c := new Condition(t);
      if t == CurrentInputCondition {
        o := c.SetInputType(data.behaviorType);
        if o.Raised? {
          return;
        }
      }
      data.conditions := data.conditions + [c];
      o := Done;
    }

    /**
     * `removeCondition`: GremlinError for an index at or past the end. A
     * negative index is not rejected and `del` counts it from the end
     * (IndexError below minus the count).
     */
    method RemoveCondition(index: int) returns (o: Outcome)
      modifies data
      ensures data.logicalOperator == old(data.logicalOperator)
      ensures index >= |old(data.conditions)| ==> o == Raised(GremlinError) && data.conditions == old(data.conditions)
      ensures index < |old(data.conditions)| ==>
                match PyDelete(old(data.conditions), index)
                case Err(f) => o == Raised(f) && data.conditions == old(data.conditions)
                case Ok(rest) => o == Done && data.conditions == rest
    {
      if index >= |data.conditions| {
        return Raised(GremlinError);
      }
      match PyDelete(data.conditions, index) {
        case Err(f) =>
          return Raised(f);
        case Ok(rest) =>
          data.conditions := rest;
          return Done;
      }
    }
  }
}
