// The action model of gremlin/ui/action_model.py: the editor's view of one
// action. What is modelled is how the two check boxes "activate on press"
// and "activate on release" read and write the action's activation mode,
// and what a drag and drop of one action onto another asks the binding
// model to do.
module ActionModels {
  import opened PyCore
  import opened GremlinTypes
  import BaseClasses

  // ---------------------------------------------------------------------
  // Activation mode and the (press, release) pair

  /** `_activation_to_tuple`: press for Both and Press, release for Both and Release. */
  function ActivationToTuple(mode: ActionActivationMode): (r: (bool, bool))
    ensures r.0 <==> mode == Both || mode == Press
    ensures r.1 <==> mode == Both || mode == Release
  {
    (mode == Both || mode == Press, mode == Both || mode == Release)
  }

  /** `_tuple_to_activation`: the mode each of the four pairs stands for. */
  function TupleToActivation(state: (bool, bool)): (r: ActionActivationMode)
    ensures r != Disallowed
    ensures r == Deactivated <==> !state.0 && !state.1
    ensures r == Both <==> state.0 && state.1
  {
    match state
    case (false, false) => Deactivated
    case (true, false) => Press
    case (false, true) => Release
    case (true, true) => Both
  }

  /** Every mode but Disallowed survives the trip through the pair. */
  lemma ActivationRoundTrip(mode: ActionActivationMode)
    requires mode != Disallowed
    ensures TupleToActivation(ActivationToTuple(mode)) == mode
  {
  }

  /** The pair survives the trip through the mode. */
  lemma TupleRoundTrip(state: (bool, bool))
    ensures ActivationToTuple(TupleToActivation(state)) == state
  {
  }

  /** Disallowed reads as neither press nor release, so writing it back gives Deactivated. */
  lemma DisallowedDoesNotRoundTrip()
    ensures ActivationToTuple(Disallowed) == (false, false)
    ensures TupleToActivation(ActivationToTuple(Disallowed)) == Deactivated
  {
  }

  /**
   * The pair is what the action runs on: with a press flag the action runs
   * for a pressed value, with a release flag for a released one (a mode
   * other than Disallowed).
   */
  lemma TupleMatchesExecution(mode: ActionActivationMode, current: InputValue)
    requires mode != Disallowed
    ensures BaseClasses.ShouldExecute(mode, current).Ok?
    ensures Truthy(current) ==> BaseClasses.ShouldExecute(mode, current).value == ActivationToTuple(mode).0
    ensures !Truthy(current) ==> BaseClasses.ShouldExecute(mode, current).value == ActivationToTuple(mode).1
  {
  }

  // ---------------------------------------------------------------------
  // Drag and drop

  /** What a drop asks of the binding model. */
  datatype DropRequest =
    /** Only `sync_data`: the UI is refreshed, nothing moves. */
    | Resync
    /** `move_action(source, target)` or, with a container, `move_action(source, target, container)`. */
    | Move(source: int, target: int, container: Option<string>)

  /**
   * `dropAction`: dropping an action on itself only resyncs; the method
   * "append" moves it after the target, any other method names the
   * container to move it into.
   */
  function DropAction(source: int, target: int, how: string): (r: DropRequest)
    ensures r == Resync <==> source == target
    ensures r.Move? ==> r.source == source && r.target == target
    ensures r.Move? ==> (r.container.None? <==> how == "append")
    ensures r.Move? && r.container.Some? ==> r.container.value == how
  {
    if source == target then Resync
    else if how == "append" then Move(source, target, None)
    else Move(source, target, Some(how))
  }

  /** `dropAction` reloads the current input item after a move onto the root (sequence index 0). */
  function ReloadsInputItem(source: int, target: int): (r: bool)
    ensures r <==> source != target && target == 0
  {
    source != target && target == 0
  }

  // ---------------------------------------------------------------------
  // The model

  /** `ActionModel`: the editor's handle on one action's data. */
  class ActionModel {
    const data: BaseClasses.ActionData

    constructor(data: BaseClasses.ActionData)
      ensures this.data == data
    {
      this.data := data;
    }

    /** `canChangeActivation`. */
    predicate CanChangeActivation()
      reads data
      ensures CanChangeActivation() <==> data.activationMode != Disallowed
    {
      data.activationMode != Disallowed
    }

    /** `activateOnPress` read. */
    predicate ActivateOnPress()
      reads data
      ensures ActivateOnPress() <==> data.activationMode == Both || data.activationMode == Press
    {
      ActivationToTuple(data.activationMode).0
    }

    /** `activateOnRelease` read. */
    predicate ActivateOnRelease()
      reads data
      ensures ActivateOnRelease() <==> data.activationMode == Both || data.activationMode == Release
    {
      ActivationToTuple(data.activationMode).1
    }

    /**
     * `activateOnPress` write: when the flag differs from the current one
     * the mode becomes the one for (value, current release flag);
     * otherwise nothing changes.
     */
    method SetActivateOnPress(value: bool)
      modifies data
      ensures data.containers == old(data.containers)
      ensures old(ActivationToTuple(data.activationMode).0) == value ==> data.activationMode == old(data.activationMode)
      ensures old(ActivationToTuple(data.activationMode).0) != value ==>
                data.activationMode == TupleToActivation((value, old(ActivationToTuple(data.activationMode).1)))
      ensures ActivateOnPress() == value
      ensures ActivateOnRelease() == old(ActivateOnRelease())
    {
      var state := ActivationToTuple(data.activationMode);
      if state.0 != value {
        data.activationMode := TupleToActivation((value, state.1));
      }
    }

    /** `activateOnRelease` write: the mirror image of SetActivateOnPress. */
    method SetActivateOnRelease(value: bool)
      modifies data
      ensures data.containers == old(data.containers)
      ensures old(ActivationToTuple(data.activationMode).1) == value ==> data.activationMode == old(data.activationMode)
      ensures old(ActivationToTuple(data.activationMode).1) != value ==>
                data.activationMode == TupleToActivation((old(ActivationToTuple(data.activationMode).0), value))
      ensures ActivateOnRelease() == value
      ensures ActivateOnPress() == old(ActivateOnPress())
    {
      var state := ActivationToTuple(data.activationMode);
      if state.1 != value {
        data.activationMode := TupleToActivation((state.0, value));
      }
    }
  }

  /**
   * The setters on the pure level: writing a press flag keeps the release
   * flag and reads back as written, and writing the flag already shown
   * changes nothing for any mode but Disallowed.
   */
  function WithPress(mode: ActionActivationMode, value: bool): (r: ActionActivationMode)
    ensures ActivationToTuple(r) == (value, ActivationToTuple(mode).1)
    ensures mode != Disallowed && ActivationToTuple(mode).0 == value ==> r == mode
  {
    var state := ActivationToTuple(mode);
    if state.0 != value then TupleToActivation((value, state.1)) else mode
  }

  /** The release counterpart of WithPress. */
  function WithRelease(mode: ActionActivationMode, value: bool): (r: ActionActivationMode)
    ensures ActivationToTuple(r) == (ActivationToTuple(mode).0, value)
    ensures mode != Disallowed && ActivationToTuple(mode).1 == value ==> r == mode
  {
    var state := ActivationToTuple(mode);
    if state.1 != value then TupleToActivation((state.0, value)) else mode
  }

  /** The two check boxes are independent: setting them in either order gives the same mode. */
  lemma SettersCommute(mode: ActionActivationMode, press: bool, release: bool)
    ensures WithRelease(WithPress(mode, press), release) == WithPress(WithRelease(mode, release), press)
  {
  }

  /** Ticking a box on a Disallowed action makes it runnable, which is why the editor greys the boxes out. */
  lemma DisallowedBecomesPress()
    ensures WithPress(Disallowed, true) == Press
    ensures WithRelease(Disallowed, true) == Release
    ensures WithPress(Disallowed, false) == Disallowed
  {
  }
}
