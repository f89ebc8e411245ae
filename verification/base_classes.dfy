// The shared machinery of actions in gremlin/base_classes.py: the
// raw/current value pair, the initial activation mode, selector-indexed
// child containers with anchored insertion and removal, the two list
// helpers, and the activation gate every functor consults.
module BaseClasses {
  import opened PyCore
  import opened GremlinTypes

  // ---------------------------------------------------------------------
  // Value

  /** `Value`: the raw input value and the possibly modified current one. */
  class Value {
    /** `_raw`: fixed at construction. */
    const raw: InputValue
    /** `_current`. */
    var current: InputValue

    constructor(raw: InputValue)
      ensures this.raw == raw && current == raw
    {
      this.raw := raw;
      current := raw;
    }

    /** The `current` setter: the raw value stays as it was. */
    method SetCurrent(v: InputValue)
      modifies this
      ensures current == v
    {
      current := v;
    }
  }

  // ---------------------------------------------------------------------
  // Activation mode from the class properties

  /** The activation mode an ActivateOn... or ActivateDisabled property selects; None for any other property. */
  function ActivationOf(p: ActionProperty): Option<ActionActivationMode>
  {
    match p
    case ActivateOnPress => Some(Press)
    case ActivateOnRelease => Some(Release)
    case ActivateOnBoth => Some(Both)
    case ActivateDisabled => Some(Disallowed)
    case ReuseByDefault => None
  }

  /**
   * `m` is the mode of the last activation property in the list, or
   * Deactivated when the list has none.
   */
  ghost predicate SelectsLast(props: seq<ActionProperty>, m: ActionActivationMode)
  {
    && ((forall i :: 0 <= i < |props| ==> ActivationOf(props[i]).None?) ==> m == Deactivated)
    && ((exists i :: 0 <= i < |props| && ActivationOf(props[i]).Some?) ==>
          exists i :: 0 <= i < |props| && ActivationOf(props[i]) == Some(m) &&
                      forall j :: i < j < |props| ==> ActivationOf(props[j]).None?)
  }

  /** The mode selected by the last activation property in the list; Deactivated when there is none. */
  function LastActivation(props: seq<ActionProperty>): (m: ActionActivationMode)
    ensures SelectsLast(props, m)
  {
    if props == [] then Deactivated
    else
      var last := props[|props| - 1];
      if ActivationOf(last).Some? then
        assert ActivationOf(props[|props| - 1]) == Some(ActivationOf(last).value);
        ActivationOf(last).value
      else
        var m := LastActivation(props[..|props| - 1]);
        SkipInactive(props, m);
        m
  }

  /** A last property that selects nothing leaves the choice to the ones before it. */
  lemma SkipInactive(props: seq<ActionProperty>, m: ActionActivationMode)
    requires props != [] && ActivationOf(props[|props| - 1]).None?
    requires SelectsLast(props[..|props| - 1], m)
    ensures SelectsLast(props, m)
  {
    var init := props[..|props| - 1];
    assert forall i :: 0 <= i < |init| ==> init[i] == props[i];
    if exists i :: 0 <= i < |props| && ActivationOf(props[i]).Some? {
      var i :| 0 <= i < |props| && ActivationOf(props[i]).Some?;
      assert ActivationOf(init[i]).Some?;
      var k :| 0 <= k < |init| && ActivationOf(init[k]) == Some(m) &&
               forall j :: k < j < |init| ==> ActivationOf(init[j]).None?;
      assert ActivationOf(props[k]) == Some(m);
    }
  }

  /** The loop in `AbstractActionData.__init__` that sets the initial activation mode. */
  method InitialActivation(props: seq<ActionProperty>) returns (m: ActionActivationMode)
    ensures m == LastActivation(props)
  {
    m := Deactivated;
    var i := 0;
    while i < |props|
      invariant 0 <= i <= |props|
      invariant m == LastActivation(props[..i])
    {
      assert props[..i + 1][..i] == props[..i];
      match props[i] {
        case ActivateOnPress => m := Press;
        case ActivateOnRelease => m := Release;
        case ActivateOnBoth => m := Both;
        case ActivateDisabled => m := Disallowed;
        case ReuseByDefault =>
      }
      i := i + 1;
    }
    assert props[..i] == props;
  }

  // ---------------------------------------------------------------------
  // Child containers

  datatype InsertionMode = Append | Prepend

  /**
   * All containers in selector order, each child paired with the selector
   * of its container, as `get_actions(None)` concatenates them.
   */
  function Gathered(containers: map<string, seq<Uuid>>, selectors: seq<string>): (r: (seq<Uuid>, seq<string>))
    requires forall s :: s in selectors ==> s in containers
    ensures |r.0| == |r.1|
    ensures forall i :: 0 <= i < |r.1| ==> r.1[i] in selectors && r.0[i] in containers[r.1[i]]
    ensures |r.0| == TotalSize(containers, selectors)
  {
    if selectors == [] then ([], [])
    else
      var s := selectors[|selectors| - 1];
      var front := Gathered(containers, selectors[..|selectors| - 1]);
      (front.0 + containers[s], front.1 + seq(|containers[s]|, _ => s))
  }

  /** The number of children in the listed containers. */
  function TotalSize(containers: map<string, seq<Uuid>>, selectors: seq<string>): nat
    requires forall s :: s in selectors ==> s in containers
  {
    if selectors == [] then 0
    else TotalSize(containers, selectors[..|selectors| - 1]) + |containers[selectors[|selectors| - 1]]|
  }

  /**
   * An `AbstractActionData` seen through its containers: `_valid_selectors`
   * and `_get_container` are the two abstract hooks every action plugin
   * implements; here they are the fields `selectors` and `containers`.
   * Children are named by their action ids.
   */
  class ActionData {
    const id: Uuid
    var activationMode: ActionActivationMode
    /** `_valid_selectors()`. */
    const selectors: seq<string>
    /** `_get_container(selector)` for every valid selector. */
    var containers: map<string, seq<Uuid>>

    ghost predicate Valid()
      reads this
    {
      forall s :: s in selectors <==> s in containers
    }

    /** A new action whose class lists `props` and whose containers start empty. */
    constructor(id: Uuid, props: seq<ActionProperty>, selectors: seq<string>)
      ensures Valid()
      ensures this.id == id && this.selectors == selectors
      ensures activationMode == LastActivation(props)
      ensures forall s :: s in selectors ==> containers[s] == []
    {
      var mode := InitialActivation(props);
      this.id := id;
      this.selectors := selectors;
      containers := map s | s in selectors :: [];
      activationMode := mode;
    }

    /** `_validate_selector`: a listed selector passes, and None when `noneIsValid`; anything else raises GremlinError. */
    function ValidateSelector(selector: Option<string>, noneIsValid: bool): (o: Outcome)
      ensures o == Done <==> (selector.Some? && selector.value in selectors) || (selector.None? && noneIsValid)
      ensures o.Raised? ==> o.fault == GremlinError
    {
      if (selector.Some? && selector.value in selectors) || (selector.None? && noneIsValid) then Done
      else Raised(GremlinError)
    }

    /**
     * `get_actions`: for None, every container in selector order with a
     * parallel list of selectors; for a selector, its container with that
     * selector repeated; an unknown selector raises GremlinError.
     */
    method GetActions(selector: Option<string>) returns (r: Result<(seq<Uuid>, seq<string>)>)
      requires Valid()
      ensures r.Err? <==> selector.Some? && selector.value !in selectors
      ensures r.Err? ==> r.fault == GremlinError
      ensures r.Ok? && selector.None? ==> r.value == Gathered(containers, selectors)
      ensures r.Ok? && selector.Some? ==>
                r.value.0 == containers[selector.value] &&
                |r.value.1| == |r.value.0| && forall i :: 0 <= i < |r.value.1| ==> r.value.1[i] == selector.value
    {
      if ValidateSelector(selector, true).Raised? {
        return Err(GremlinError);
      }
      if selector.Some? {
        var c := containers[selector.value];
        return Ok((c, seq(|c|, _ => selector.value)));
      }
      var actions: seq<Uuid> := [];
      var tags: seq<string> := [];
      var i := 0;
      while i < |selectors|
        invariant 0 <= i <= |selectors|
        invariant (actions, tags) == Gathered(containers, selectors[..i])
      {
        assert selectors[..i + 1][..i] == selectors[..i];
        var c := containers[selectors[i]];
        actions := actions + c;
        tags := tags + seq(|c|, _ => selectors[i]);
        i := i + 1;
      }
      assert selectors[..i] == selectors;
      r := Ok((actions, tags));
    }

    /**
     * `insert_action`. The selector must be listed (None is refused).
     * Without an anchor, Prepend inserts at the front and Append at the
     * end. With an anchor in [0, len], Prepend inserts at it and Append one
     * past it (`list.insert` puts len + 1 at the end). An anchor outside
     * [0, len] is refused, but building the message reads `.id` of the
     * integer, so AttributeError is what escapes. Any failure changes nothing.
     */
    method InsertAction(action: Uuid, selector: Option<string>, mode: InsertionMode, anchor: Option<int>) returns (o: Outcome)
      requires Valid()
      modifies this
      ensures Valid()
      ensures selector.None? || selector.value !in selectors ==> o == Raised(GremlinError) && containers == old(containers)
      ensures selector.Some? && selector.value in selectors && anchor.Some? && !(0 <= anchor.value <= |old(containers)[selector.value]|) ==>
                o == Raised(AttributeError) && containers == old(containers)
      ensures o == Done <==> selector.Some? && selector.value in selectors &&
                             (anchor.None? || 0 <= anchor.value <= |old(containers)[selector.value]|)
      ensures o == Done ==>
                var c := old(containers)[selector.value];
                var at := if anchor.None? then (if mode == Prepend then 0 else |c|)
                          else if mode == Append then anchor.value + 1 else anchor.value;
                containers == old(containers)[selector.value := PyInsert(c, at, action)]
    {
      if ValidateSelector(selector, false).Raised? {
        return Raised(GremlinError);
      }
      var s := selector.value;
      var c := containers[s];
      var at: int;
      if anchor.None? {
        at := if mode == Prepend then 0 else |c|;
      } else {
        if !(0 <= anchor.value <= |c|) {
          return Raised(AttributeError);
        }
        at := if mode == Append then anchor.value + 1 else anchor.value;
      }
      containers := containers[s := PyInsert(c, at, action)];
      o := Done;
    }

    /**
     * `remove_action`: deletes the child at the index, GremlinError for an
     * unknown selector or an index outside [0, len). A None selector passes
     * `_validate_selector` (None is valid by default), and the container
     * `_get_container(None)` gives is None in the base class. The chained
     * comparison stops at a negative index, which raises GremlinError;
     * otherwise `len(None)` raises TypeError.
     */
    method RemoveAction(index: int, selector: Option<string>) returns (o: Outcome)
      requires Valid()
      modifies this
      ensures Valid()
      ensures selector.None? && index < 0 ==> o == Raised(GremlinError)
      ensures selector.None? && index >= 0 ==> o == Raised(TypeError)
      ensures o == Done <==> selector.Some? && selector.value in selectors && 0 <= index < |old(containers)[selector.value]|
      ensures o.Raised? && selector.Some? ==> o.fault == GremlinError
      ensures o.Raised? ==> containers == old(containers)
      ensures o == Done ==>
                var c := old(containers)[selector.value];
                containers == old(containers)[selector.value := c[..index] + c[index + 1..]]
    {
      if ValidateSelector(selector, true).Raised? {
        return Raised(GremlinError);
      }
      if selector.None? {
        return if index < 0 then Raised(GremlinError) else Raised(TypeError);
      }
      var c := containers[selector.value];
      if 0 <= index < |c| {
        containers := containers[selector.value := c[..index] + c[index + 1..]];
        return Done;
      }
      return Raised(GremlinError);
    }
  }

  /** Where `insert_action` puts the new child keeps every other child in order. */
  lemma InsertKeepsOthers(c: seq<Uuid>, at: int, x: Uuid)
    ensures var r := PyInsert(c, at, x); var k := InsertPosition(|c|, at);
            |r| == |c| + 1 && r[k] == x && r[..k] + r[k + 1..] == c &&
            multiset(r) == multiset(c) + multiset{x}
  {
    var r := PyInsert(c, at, x);
    var k := InsertPosition(|c|, at);
    assert c == c[..k] + c[k..];
    assert r == c[..k] + [x] + c[k..];
    assert r[..k] + r[k + 1..] == c;
  }

  // ---------------------------------------------------------------------
  // List helpers

  /** `_remove_entry_from_list`: the first occurrence of the value goes; an absent value changes nothing. */
  function RemoveEntry<T(==)>(storage: seq<T>, value: T): (r: seq<T>)
    ensures value !in storage ==> r == storage
    ensures value in storage ==> |r| + 1 == |storage| && multiset(r) == multiset(storage) - multiset{value}
    ensures value in storage ==>
              var k := FirstIndex(storage, value);
              r[..k] == storage[..k] && r[k..] == storage[k + 1..]
  {
    if value in storage then
      var k := FirstIndex(storage, value);
      assert storage == storage[..k] + [value] + storage[k + 1..];
      storage[..k] + storage[k + 1..]
    else storage
  }

  /**
   * `_insert_entry_into_list`: the value goes right after (append) or
   * right before the first occurrence of the anchor; an absent anchor
   * changes nothing.
   */
  function InsertEntry<T(==)>(storage: seq<T>, anchor: T, value: T, append: bool): (r: seq<T>)
    ensures anchor !in storage ==> r == storage
    ensures anchor in storage ==> |r| == |storage| + 1 && multiset(r) == multiset(storage) + multiset{value}
    ensures anchor in storage ==>
              var k := FirstIndex(storage, anchor);
              if append then r[k] == anchor && r[k + 1] == value && r[..k + 1] == storage[..k + 1] && r[k + 2..] == storage[k + 1..]
              else r[k] == value && r[k + 1] == anchor && r[..k] == storage[..k] && r[k + 1..] == storage[k..]
  {
    if anchor in storage then
      var k := FirstIndex(storage, anchor);
      InsertNextTo(storage, k, value, append);
      PyInsert(storage, if append then k + 1 else k, value)
    else storage
  }

  /** Inserting right after (append) or right before position k. */
  lemma InsertNextTo<T>(storage: seq<T>, k: nat, value: T, append: bool)
    requires k < |storage|
    ensures var r := PyInsert(storage, if append then k + 1 else k, value);
            && |r| == |storage| + 1 && multiset(r) == multiset(storage) + multiset{value}
            && if append then r[k] == storage[k] && r[k + 1] == value && r[..k + 1] == storage[..k + 1] && r[k + 2..] == storage[k + 1..]
               else r[k] == value && r[k + 1] == storage[k] && r[..k] == storage[..k] && r[k + 1..] == storage[k..]
  {
    var at := if append then k + 1 else k;
    var r := PyInsert(storage, at, value);
    assert storage == storage[..at] + storage[at..];
    assert r == storage[..at] + [value] + storage[at..];
    if append {
      assert r[k] == r[..k + 1][k] == storage[..k + 1][k];
    } else {
      assert r[k + 1] == r[k + 1..][0] == storage[k..][0];
    }
  }

  // ---------------------------------------------------------------------
  // The activation gate

  /**
   * `_should_execute`: Both always runs, Deactivated never, Press when the
   * current value is truthy, Release when it is not; any other mode
   * (Disallowed) raises GremlinError.
   */
  function ShouldExecute(mode: ActionActivationMode, current: InputValue): (r: Result<bool>)
    ensures r.Ok? <==> mode != Disallowed
    ensures r.Err? ==> r.fault == GremlinError
    ensures r.Ok? ==> (r.value <==> mode == Both || (mode == Press && Truthy(current)) || (mode == Release && !Truthy(current)))
  {
    match mode
    case Both => Ok(true)
    case Deactivated => Ok(false)
    case Press => Ok(Truthy(current))
    case Release => Ok(!Truthy(current))
    case Disallowed => Err(GremlinError)
  }

  /** For every value exactly one of Press and Release lets the action run, and Both runs whenever either does. */
  lemma PressReleaseComplement(current: InputValue)
    ensures ShouldExecute(Press, current).value != ShouldExecute(Release, current).value
    ensures ShouldExecute(Both, current).value && !ShouldExecute(Deactivated, current).value
  {
  }
}
