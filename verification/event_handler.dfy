// Event identity and callback dispatch of gremlin/event_handler.py: the
// hash key that makes two events "the same input", the nested callback
// tables of EventHandler, how mode inheritance copies callbacks into child
// modes, the paused filter, and the keyboard auto-repeat filter of
// EventListener. Callbacks are opaque values; running them is not modelled.
module EventHandling {
  import opened PyCore
  import opened GremlinTypes
  import InputCache

  // ---------------------------------------------------------------------
  // Events

  /**
   * An event's `identifier`: the input index of an axis, button or hat
   * (and the button id of a mouse event), or a key's (scan code, extended)
   * pair.
   */
  datatype Identifier = IndexIdent(n: int) | KeyIdent(scan: int, extended: bool)

  /** `Event`: what happened, on which input of which device, in which mode. */
  datatype Event = Event(
    eventType: InputType,
    identifier: Identifier,
    device: Uuid,
    mode: string,
    value: InputValue,
    isPressed: Option<bool>,
    rawValue: Option<int>)

  /** The tuple `__hash__` hashes: device, type, identifier and the extended flag as 0 or 1. */
  datatype EventKey = EventKey(device: Uuid, eventType: InputType, identifier: Identifier, flag: int)

  /**
   * The key of `__hash__`. A keyboard event reads `identifier[1]`, which
   * raises TypeError unless the identifier is a pair.
   */
  function HashKey(e: Event): (r: Result<EventKey>)
    ensures r.Err? <==> e.eventType == Keyboard && !e.identifier.KeyIdent?
    ensures r.Err? ==> r.fault == TypeError
    ensures r.Ok? ==> r.value.device == e.device && r.value.eventType == e.eventType
                      && r.value.identifier == e.identifier
    ensures r.Ok? ==> (r.value.flag == 1 <==> e.eventType == Keyboard && e.identifier.extended)
    ensures r.Ok? ==> r.value.flag in {0, 1}
  {
    if e.eventType == Keyboard then
      match e.identifier
      case KeyIdent(_, extended) => Ok(EventKey(e.device, e.eventType, e.identifier, if extended then 1 else 0))
      case IndexIdent(_) => Err(TypeError)
    else Ok(EventKey(e.device, e.eventType, e.identifier, 0))
  }

  /** `__eq__`: the two hashes agree (hash collisions are not modelled). */
  function Equal(a: Event, b: Event): (r: Result<bool>)
  {
    match (HashKey(a), HashKey(b))
    case (Err(f), _) => Err(f)
    case (_, Err(f)) => Err(f)
    case (Ok(ka), Ok(kb)) => Ok(ka == kb)
  }

  /** `__ne__`: the negation of `__eq__`. */
  function NotEqual(a: Event, b: Event): (r: Result<bool>)
    ensures r.Ok? <==> Equal(a, b).Ok?
    ensures r.Ok? ==> r.value == !Equal(a, b).value
  {
    match Equal(a, b)
    case Ok(v) => Ok(!v)
    case Err(f) => Err(f)
  }

  /** Two hashable events are equal exactly when they come from the same input of the same device. */
  lemma EqualIffSameInput(a: Event, b: Event)
    requires HashKey(a).Ok? && HashKey(b).Ok?
    ensures Equal(a, b) == Ok(a.device == b.device && a.eventType == b.eventType && a.identifier == b.identifier)
  {
    if a.device == b.device && a.eventType == b.eventType && a.identifier == b.identifier {
      if a.eventType == Keyboard {
        assert HashKey(a).value.flag == HashKey(b).value.flag;
      }
    }
  }

  /** The value, the pressed state, the raw value and the mode never affect equality. */
  lemma EqualIgnoresState(e: Event, mode: string, value: InputValue, isPressed: Option<bool>, rawValue: Option<int>)
    requires HashKey(e).Ok?
    ensures Equal(e, e.(mode := mode, value := value, isPressed := isPressed, rawValue := rawValue)) == Ok(true)
    ensures HashKey(e.(mode := mode, value := value, isPressed := isPressed, rawValue := rawValue)) == HashKey(e)
  {
  }

  /** `clone`: a new event with every field copied. */
  function Clone(e: Event): (r: Event)
    ensures r.eventType == e.eventType && r.identifier == e.identifier && r.device == e.device
    ensures r.mode == e.mode && r.value == e.value && r.isPressed == e.isPressed && r.rawValue == e.rawValue
  {
    Event(e.eventType, e.identifier, e.device, e.mode, e.value, e.isPressed, e.rawValue)
  }

  /** A clone is equal to its original, and raises exactly when the original does. */
  lemma CloneIsEqual(e: Event)
    ensures HashKey(Clone(e)) == HashKey(e)
    ensures HashKey(e).Ok? ==> Equal(Clone(e), e) == Ok(true)
    ensures HashKey(e).Err? ==> Equal(Clone(e), e) == Err(TypeError)
  {
  }

  // ---------------------------------------------------------------------
  // Callback tables

  /**
   * A registered callback: which one it is, and its `always_execute` flag,
   * which lets it run while processing is paused.
   */
  datatype Callback = Callback(id: int, alwaysExecute: bool)

  /** Callbacks of one mode of one device, by event. */
  type EventTable = map<EventKey, seq<Callback>>
  /** Callbacks of one device, by mode name. */
  type DeviceTable = map<string, EventTable>
  /** `EventHandler.callbacks`: device guid -> mode -> event -> callbacks. */
  type CallbackTable = map<Uuid, DeviceTable>

  function DeviceOf(t: CallbackTable, d: Uuid): DeviceTable
  {
    if d in t then t[d] else map[]
  }

  function ModeOf(t: CallbackTable, d: Uuid, m: string): EventTable
  {
    var dt := DeviceOf(t, d);
    if m in dt then dt[m] else map[]
  }

  /** The callbacks registered for an event key, the empty list where any level is missing. */
  function Lookup(t: CallbackTable, d: Uuid, m: string, k: EventKey): seq<Callback>
  {
    var et := ModeOf(t, d, m);
    if k in et then et[k] else []
  }

  /** The table after `add_callback` appended `cb` for (d, m, k). */
  function Appended(t: CallbackTable, d: Uuid, m: string, k: EventKey, cb: Callback): CallbackTable
  {
    t[d := DeviceOf(t, d)[m := ModeOf(t, d, m)[k := Lookup(t, d, m, k) + [cb]]]]
  }

  /** The device and mode levels `add_callback` creates before it hashes the event. */
  function WithLevels(t: CallbackTable, d: Uuid, m: string): CallbackTable
  {
    t[d := DeviceOf(t, d)[m := ModeOf(t, d, m)]]
  }

  /**
   * Appending creates every missing level, puts `cb` after the callbacks
   * already there, and leaves every other (device, mode, event) as it was.
   */
  lemma AppendedLookup(t: CallbackTable, d: Uuid, m: string, k: EventKey, cb: Callback, d': Uuid, m': string, k': EventKey)
    ensures var t' := Appended(t, d, m, k, cb);
            d in t' && m in t'[d] && k in t'[d][m]
    ensures Lookup(Appended(t, d, m, k, cb), d', m', k') ==
              if d' == d && m' == m && k' == k then Lookup(t, d, m, k) + [cb] else Lookup(t, d', m', k')
    ensures Appended(t, d, m, k, cb).Keys == t.Keys + {d}
  {
  }

  /** Creating the empty levels registers nothing. */
  lemma WithLevelsLookup(t: CallbackTable, d: Uuid, m: string, d': Uuid, m': string, k': EventKey)
    ensures Lookup(WithLevels(t, d, m), d', m', k') == Lookup(t, d', m', k')
  {
  }

  /** The callbacks of `s` that may run while paused, in their order. */
  function AlwaysExecuted(s: seq<Callback>): (r: seq<Callback>)
    ensures |r| <= |s|
    ensures forall c :: c in r <==> c in s && c.alwaysExecute
    ensures forall c: Callback :: c.alwaysExecute ==> multiset(r)[c] == multiset(s)[c]
  {
    if s == [] then []
    else
      var rest := AlwaysExecuted(s[1..]);
      assert s == [s[0]] + s[1..];
      if s[0].alwaysExecute then [s[0]] + rest else rest
  }

  // ---------------------------------------------------------------------
  // Mode inheritance

  /** The child's events, plus the parent's callbacks for every event the child lacks. */
  function InheritMissing(child: EventTable, parent: EventTable): (r: EventTable)
    ensures r.Keys == child.Keys + parent.Keys
    ensures forall k :: k in child ==> r[k] == child[k]
    ensures forall k :: k in parent && k !in child ==> r[k] == parent[k]
  {
    map k | k in child.Keys + parent.Keys :: if k in child then child[k] else parent[k]
  }

  /** A table with the child's entries, and the parent's where the child has none, is the merge. */
  lemma InheritMissingUnique(child: EventTable, parent: EventTable, r: EventTable)
    requires forall k :: k in r <==> k in child || k in parent
    requires forall k :: k in child ==> r[k] == child[k]
    requires forall k :: k in r && k !in child ==> r[k] == parent[k]
    ensures r == InheritMissing(child, parent)
  {
  }

  /** One device's table after its mode `m` has passed its callbacks to `children`, in order. */
  function InheritChildren(dt: DeviceTable, m: string, children: seq<string>): (r: DeviceTable)
    requires m in dt
    ensures m in r && r[m] == dt[m]
    decreases |children|
  {
    if children == [] then dt
    else
      var c := children[0];
      var childTable := if c in dt then dt[c] else map[];
      InheritChildren(dt[c := InheritMissing(childTable, dt[m])], m, children[1..])
  }

  /** One mode of `mode_list()` processed for every device that has callbacks in that mode. */
  function InheritMode(t: CallbackTable, m: string, children: seq<string>): (r: CallbackTable)
    ensures r.Keys == t.Keys
  {
    map d | d in t :: if m in t[d] then InheritChildren(t[d], m, children) else t[d]
  }

  /** `build_event_lookup`: the modes, each with its children's names, in `mode_list()` order. */
  function InheritAll(t: CallbackTable, modes: seq<(string, seq<string>)>): (r: CallbackTable)
    ensures r.Keys == t.Keys
    decreases |modes|
  {
    if modes == [] then t
    else InheritAll(InheritMode(t, modes[0].0, modes[0].1), modes[1..])
  }

  /** Passing callbacks down never replaces an entry a table already had. */
  lemma {:induction false} InheritChildrenKeeps(dt: DeviceTable, m: string, children: seq<string>, mode: string, k: EventKey)
    requires m in dt
    requires mode in dt && k in dt[mode]
    ensures mode in InheritChildren(dt, m, children)
    ensures k in InheritChildren(dt, m, children)[mode]
    ensures InheritChildren(dt, m, children)[mode][k] == dt[mode][k]
    decreases |children|
  {
    if children != [] {
      var c := children[0];
      var childTable := if c in dt then dt[c] else map[];
      InheritChildrenKeeps(dt[c := InheritMissing(childTable, dt[m])], m, children[1..], mode, k);
    }
  }

  /**
   * After a mode passes its callbacks down, every listed child has an
   * entry for every event of the parent.
   */
  lemma {:induction false} InheritChildrenCovers(dt: DeviceTable, m: string, children: seq<string>, child: string, k: EventKey)
    requires m in dt && k in dt[m] && child in children
    ensures child in InheritChildren(dt, m, children)
    ensures k in InheritChildren(dt, m, children)[child]
    decreases |children|
  {
    var c := children[0];
    var childTable := if c in dt then dt[c] else map[];
    var dt' := dt[c := InheritMissing(childTable, dt[m])];
    if c == child {
      assert k in dt'[child];
      InheritChildrenKeeps(dt', m, children[1..], child, k);
    } else {
      InheritChildrenCovers(dt', m, children[1..], child, k);
    }
  }

  /**
   * A child that had no callbacks for an event of its parent receives the
   * parent's callbacks for it, provided no sibling listed before it shares
   * its name with the parent (a mode is never its own child).
   */
  lemma {:induction false} InheritChildrenCopies(dt: DeviceTable, m: string, children: seq<string>, child: string, k: EventKey)
    requires m in dt && k in dt[m] && child in children && child != m
    requires child !in dt || k !in dt[child]
    ensures child in InheritChildren(dt, m, children) && k in InheritChildren(dt, m, children)[child]
    ensures InheritChildren(dt, m, children)[child][k] == dt[m][k]
    decreases |children|
  {
    InheritChildrenCovers(dt, m, children, child, k);
    var c := children[0];
    var childTable := if c in dt then dt[c] else map[];
    var dt' := dt[c := InheritMissing(childTable, dt[m])];
    if c == child {
      assert dt'[child][k] == dt[m][k];
      InheritChildrenKeeps(dt', m, children[1..], child, k);
    } else {
      InheritChildrenCopies(dt', m, children[1..], child, k);
    }
  }

  /** No entry a callback table already has is replaced by `build_event_lookup`. */
  lemma {:induction false} InheritAllKeeps(t: CallbackTable, modes: seq<(string, seq<string>)>, d: Uuid, m: string, k: EventKey)
    requires d in t && m in t[d] && k in t[d][m]
    ensures Lookup(InheritAll(t, modes), d, m, k) == Lookup(t, d, m, k)
    decreases |modes|
  {
    if modes != [] {
      var t' := InheritMode(t, modes[0].0, modes[0].1);
      if modes[0].0 in t[d] {
        InheritChildrenKeeps(t[d], modes[0].0, modes[0].1, m, k);
      }
      assert d in t' && m in t'[d] && k in t'[d][m] && t'[d][m][k] == t[d][m][k];
      InheritAllKeeps(t', modes[1..], d, m, k);
    }
  }

  /**
   * One step of the lookup: for a mode with callbacks on device `d`, a child
   * that lacked an event receives the parent's callbacks for it.
   */
  lemma InheritModeCopies(t: CallbackTable, m: string, children: seq<string>, d: Uuid, child: string, k: EventKey)
    requires d in t && m in t[d] && k in t[d][m] && child in children && child != m
    requires k !in ModeOf(t, d, child)
    ensures Lookup(InheritMode(t, m, children), d, child, k) == Lookup(t, d, m, k)
  {
    InheritChildrenCopies(t[d], m, children, child, k);
    var t' := InheritMode(t, m, children);
    assert t'[d] == InheritChildren(t[d], m, children);
    assert Lookup(t, d, m, k) == t[d][m][k];
  }

  // ---------------------------------------------------------------------
  // The handler

  /** Appending to the event's list once its device and mode levels exist gives the table Appended describes. */
  lemma AppendOnLevels(t: CallbackTable, d: Uuid, m: string, k: EventKey, cb: Callback)
    ensures var w := WithLevels(t, d, m);
            d in w && m in w[d] && Lookup(w, d, m, k) == Lookup(t, d, m, k) &&
            w[d := w[d][m := w[d][m][k := Lookup(w, d, m, k) + [cb]]]] == Appended(t, d, m, k, cb)
  {
    var w := WithLevels(t, d, m);
    assert w[d] == DeviceOf(t, d)[m := ModeOf(t, d, m)];
    assert w[d][m] == ModeOf(t, d, m);
    assert Lookup(w, d, m, k) == Lookup(t, d, m, k);
    var list := Lookup(t, d, m, k) + [cb];
    assert w[d][m := w[d][m][k := list]] == DeviceOf(t, d)[m := ModeOf(t, d, m)[k := list]];
  }

  /** `EventHandler`: the callback tables and the flag that pauses them. */
  class EventHandler {
    /** `process_callbacks`. */
    var processCallbacks: bool
    /** `callbacks`. */
    var callbacks: CallbackTable

    constructor()
      ensures processCallbacks && callbacks == map[]
    {
      processCallbacks := true;
      callbacks := map[];
    }

    /**
     * `add_callback`: creates the missing device and mode levels, then the
     * event's list, and appends `cb`. Hashing an unhashable keyboard event
     * raises TypeError after the first two levels exist.
     */
    method AddCallback(device: Uuid, mode: string, event: Event, cb: Callback) returns (o: Outcome)
      modifies this
      ensures processCallbacks == old(processCallbacks)
      ensures o.Raised? <==> HashKey(event).Err?
      ensures o.Raised? ==> o.fault == TypeError && callbacks == WithLevels(old(callbacks), device, mode)
      ensures o.Done? ==> callbacks == Appended(old(callbacks), device, mode, HashKey(event).value, cb)
    {
      AddLevels(device, mode);
      var key := HashKey(event);
      if key.Err? {
        return Raised(key.fault);
      }
      AppendToEvent(device, mode, key.value, cb);
      AppendOnLevels(old(callbacks), device, mode, key.value, cb);
      return Done;
    }

    /** The first two levels of `add_callback`: the device's table, then the mode's. */
    method AddLevels(device: Uuid, mode: string)
      modifies this
      ensures processCallbacks == old(processCallbacks)
      ensures callbacks == WithLevels(old(callbacks), device, mode)
    {
      if device !in callbacks {
        callbacks := callbacks[device := map[]];
      }
      assert callbacks[device] == DeviceOf(old(callbacks), device);
      if mode !in callbacks[device] {
        callbacks := callbacks[device := callbacks[device][mode := map[]]];
      }
      assert callbacks[device] == DeviceOf(old(callbacks), device)[mode := ModeOf(old(callbacks), device, mode)];
    }

    /** The last level of `add_callback`: the event's list, created empty if missing, then `cb` appended. */
    method AppendToEvent(device: Uuid, mode: string, k: EventKey, cb: Callback)
      requires device in callbacks && mode in callbacks[device]
      modifies this
      ensures processCallbacks == old(processCallbacks)
      ensures callbacks == old(callbacks)[device := old(callbacks)[device][mode :=
                old(callbacks)[device][mode][k := Lookup(old(callbacks), device, mode, k) + [cb]]]]
    {
      var events := callbacks[device][mode];
      var list := if k in events then events[k] else [];
      assert list == Lookup(callbacks, device, mode, k);
      events := events[k := list + [cb]];
      callbacks := callbacks[device := callbacks[device][mode := events]];
    }

    /**
     * `build_event_lookup`: passes every mode's callbacks down to its
     * children. The lists are values, so a child receives a copy of its
     * parent's list rather than the list itself.
     */
    method BuildEventLookup(modes: seq<(string, seq<string>)>)
      modifies this
      ensures processCallbacks == old(processCallbacks)
      ensures callbacks == InheritAll(old(callbacks), modes)
    {
      var i := 0;
      while i < |modes|
        invariant 0 <= i <= |modes|
        invariant InheritAll(old(callbacks), modes) == InheritAll(callbacks, modes[i..])
        invariant processCallbacks == old(processCallbacks)
      {
        var next := InheritDevices(callbacks, modes[i].0, modes[i].1);
        assert modes[i..][1..] == modes[i + 1..];
        callbacks := next;
        i := i + 1;
      }
    }

    /** `resume`. */
    method Resume()
      modifies this
      ensures processCallbacks && callbacks == old(callbacks)
    {
      processCallbacks := true;
    }

    /** `pause`. */
    method Pause()
      modifies this
      ensures !processCallbacks && callbacks == old(callbacks)
    {
      processCallbacks := false;
    }

    /** `toggle_active`: twice in a row restores the flag. */
    method ToggleActive()
      modifies this
      ensures processCallbacks == !old(processCallbacks) && callbacks == old(callbacks)
    {
      processCallbacks := !processCallbacks;
    }

    /** `clear`: afterwards no event has any callback. */
    method Clear()
      modifies this
      ensures processCallbacks == old(processCallbacks) && callbacks == map[]
      ensures forall d, m, k :: Lookup(callbacks, d, m, k) == []
    {
      callbacks := map[];
    }

    /**
     * `_matching_callbacks`: the callbacks registered for the event's
     * device, mode and input; only the always-execute ones while paused.
     * The event is hashed only when its device has callbacks.
     */
    function MatchingCallbacks(event: Event): (r: Result<seq<Callback>>)
      reads this
      ensures r.Err? <==> event.device in callbacks && HashKey(event).Err?
      ensures r.Err? ==> r.fault == TypeError
      ensures r.Ok? && HashKey(event).Ok? ==>
                var registered := Lookup(callbacks, event.device, event.mode, HashKey(event).value);
                forall c :: c in r.value <==> c in registered && (processCallbacks || c.alwaysExecute)
      ensures r.Ok? && processCallbacks && HashKey(event).Ok? ==>
                r.value == Lookup(callbacks, event.device, event.mode, HashKey(event).value)
      ensures r.Ok? && !processCallbacks && HashKey(event).Ok? ==>
                r.value == AlwaysExecuted(Lookup(callbacks, event.device, event.mode, HashKey(event).value))
      ensures r.Ok? && HashKey(event).Err? ==> r.value == []
    {
      var found :=
        if event.device !in callbacks then Ok([])
        else
          var byMode := callbacks[event.device];
          var byEvent := if event.mode in byMode then byMode[event.mode] else map[];
          match HashKey(event)
          case Err(f) => Err(f)
          case Ok(k) => Ok(if k in byEvent then byEvent[k] else []);
      match found
      case Err(f) => Err(f)
      case Ok(list) => Ok(if processCallbacks then list else AlwaysExecuted(list))
    }
  }

  /** One mode processed for every device: the inner loops of `build_event_lookup`. */
  method InheritDevices(t: CallbackTable, m: string, children: seq<string>) returns (r: CallbackTable)
    ensures r == InheritMode(t, m, children)
  {
    r := t;
    var pending := t.Keys;
    while pending != {}
      invariant pending <= t.Keys && r.Keys == t.Keys
      invariant forall d :: d in pending ==> r[d] == t[d]
      invariant forall d :: d in t && d !in pending ==> r[d] == InheritMode(t, m, children)[d]
      decreases |pending|
    {
      var d :| d in pending;
      if m in r[d] {
        var dt := InheritInto(r[d], m, children);
        r := r[d := dt];
      }
      pending := pending - {d};
    }
  }

  /** One mode of one device: the child loop and the event loop. */
  method InheritInto(dt: DeviceTable, m: string, children: seq<string>) returns (r: DeviceTable)
    requires m in dt
    ensures r == InheritChildren(dt, m, children)
  {
    r := dt;
    var j := 0;
    while j < |children|
      invariant 0 <= j <= |children| && m in r
      invariant InheritChildren(dt, m, children) == InheritChildren(r, m, children[j..])
    {
      var c := children[j];
      ghost var before := r;
      ghost var childTable := if c in r then r[c] else map[];
      if c !in r {
        r := r[c := map[]];
      }
      var merged := CopyMissing(r[c], r[m]);
      assert merged == InheritMissing(childTable, before[m]);
      assert children[j..][1..] == children[j + 1..];
      r := r[c := merged];
      assert r == before[c := InheritMissing(childTable, before[m])];
      j := j + 1;
    }
  }

  /** The innermost loop: every event of the parent the child lacks gets the parent's list. */
  method CopyMissing(child: EventTable, parent: EventTable) returns (r: EventTable)
    ensures r == InheritMissing(child, parent)
  {
    r := child;
    var pending := parent.Keys;
    while pending != {}
      invariant pending <= parent.Keys
      invariant forall k :: k in r <==> k in child || (k in parent && k !in pending)
      invariant forall k :: k in child ==> r[k] == child[k]
      invariant forall k :: k in r && k !in child ==> r[k] == parent[k]
      decreases |pending|
    {
      var k :| k in pending;
      if k !in r {
        r := r[k := parent[k]];
      }
      pending := pending - {k};
    }
    InheritMissingUnique(child, parent, r);
  }

  // ---------------------------------------------------------------------
  // Keyboard auto-repeat

  /** `EventListener`, reduced to the keyboard state its keyboard hook consults. */
  class EventListener {
    const keyboard: InputCache.Keyboard
    /** `dill.UUID_Keyboard`, the device every keyboard event names. */
    const keyboardDevice: Uuid

    constructor(keyboard: InputCache.Keyboard, keyboardDevice: Uuid)
      ensures this.keyboard == keyboard && this.keyboardDevice == keyboardDevice
    {
      this.keyboard := keyboard;
      this.keyboardDevice := keyboardDevice;
    }

    /**
     * `_keyboard_handler`: a key held down repeats presses; only the first
     * press and the release are recorded and emitted (as the event
     * returned), in the current mode `mode`. The OS event always
     * propagates. The key it asks about, `(scan, extended)`, and the key it
     * records, `key_from_code(scan, extended)`, are taken to be one entry.
     */
    method KeyboardHandler(scan: int, extended: bool, isPressed: bool, mode: string)
      returns (propagate: bool, emitted: Option<Event>)
      modifies keyboard
      ensures propagate
      ensures emitted.None? <==> old(keyboard.IsPressed((scan, extended))) && isPressed
      ensures emitted.None? ==> keyboard.state == old(keyboard.state)
      ensures emitted.Some? ==> keyboard.state == old(keyboard.state)[(scan, extended) := isPressed]
      ensures emitted.Some? ==>
                emitted.value == Event(Keyboard, KeyIdent(scan, extended), keyboardDevice, mode, NoValue, Some(isPressed), None)
      ensures keyboard.IsPressed((scan, extended)) == isPressed
    {
      var key := (scan, extended);
      var isRepeat := keyboard.IsPressed(key) && isPressed;
      emitted := None;
      if !isRepeat {
        keyboard.Update(key, isPressed);
        emitted := Some(Event(Keyboard, KeyIdent(scan, extended), keyboardDevice, mode, NoValue, Some(isPressed), None));
      }
      return true, emitted;
    }
  }
}
