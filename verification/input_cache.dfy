// The input-state caches of gremlin/input_cache.py: the keyboard state
// map, the cached value of one joystick input, the wrapper that lays out a
// joystick's axes, buttons and hats by their 1-based numbers, and the
// device cache behind `Joystick[guid]`. What the device driver reports
// about a device enters as a DeviceInfo value.
module InputCache {
  import opened PyCore
  import opened GremlinTypes
  import IntermediateOutputs

  // ---------------------------------------------------------------------
  // Keyboard

  /** A key, named by its scan code and extended flag. */
  type KeyId = (int, bool)

  /** `Keyboard`: the last reported state of every key seen so far. */
  class Keyboard {
    /** `_keyboard_state`. */
    var state: map<KeyId, bool>

    constructor()
      ensures state == map[]
    {
      state := map[];
    }

    /** `update`: records the key's state. */
    method Update(key: KeyId, isPressed: bool)
      modifies this
      ensures state == old(state)[key := isPressed]
      ensures IsPressed(key) == isPressed
    {
      state := state[key := isPressed];
    }

    /** `is_pressed`: the recorded state; a key never reported reads as released. */
    predicate IsPressed(key: KeyId)
      reads this
      ensures key !in state ==> !IsPressed(key)
      ensures key in state ==> (IsPressed(key) <==> state[key])
    {
      key in state && state[key]
    }
  }

  // ---------------------------------------------------------------------
  // Joystick inputs

  /** `JoystickWrapper.Input` and its Axis, Button and Hat subclasses: the cached value of one input. */
  class CachedInput {
    const device: Uuid
    const index: int
    /** `_value`; `value`, `is_pressed` and `direction` all read it. */
    var value: InputValue

    constructor(device: Uuid, index: int)
      ensures this.device == device && this.index == index && value == NoValue
    {
      this.device := device;
      this.index := index;
      value := NoValue;
    }

    /** `update`: the next read returns this value. */
    method Update(v: InputValue)
      modifies this
      ensures value == v
    {
      value := v;
    }
  }

  /**
   * What the driver reports about a device: its name, the AxisNames index
   * of each of its axes in order (`axis_map[i].axis_index`), and its button
   * and hat counts. The axis count is the length of the axis map.
   */
  datatype DeviceInfo = DeviceInfo(name: string, axisMap: seq<int>, buttonCount: nat, hatCount: nat)

  /** `JoystickWrapper`: one physical joystick's inputs, addressed as vJoy addresses them. */
  class JoystickWrapper {
    const device: Uuid
    const info: DeviceInfo
    /** `_axis`: keyed by AxisNames index, not by position. */
    const axes: map<int, CachedInput>
    /** `_buttons`: slot 0 unused, button i in slot i. */
    const buttons: seq<CachedInput?>
    /** `_hats`: slot 0 unused, hat i in slot i. */
    const hats: seq<CachedInput?>

    ghost predicate Valid()
    {
      && (forall a :: a in axes <==> a in info.axisMap)
      && (forall a :: a in axes ==> axes[a].device == device && axes[a].index == a)
      && Numbered(buttons, device, info.buttonCount)
      && Numbered(hats, device, info.hatCount)
    }

    constructor(device: Uuid, info: DeviceInfo)
      ensures Valid() && this.device == device && this.info == info
    {
      var a := InitAxes(device, info.axisMap);
      var b := InitNumbered(device, info.buttonCount);
      var h := InitNumbered(device, info.hatCount);
      this.device := device;
      this.info := info;
      axes := a;
      buttons := b;
      hats := h;
    }

    /**
     * `JoystickWrapper(guid)`: GremlinError when the driver knows no such
     * device (`info` is None).
     */
    static method Create(device: Uuid, info: Option<DeviceInfo>) returns (r: Result<JoystickWrapper>)
      ensures r.Err? <==> info.None?
      ensures r.Err? ==> r.fault == GremlinError
      ensures r.Ok? ==> r.value.Valid() && r.value.device == device && r.value.info == info.value
    {
      if info.None? {
        return Err(GremlinError);
      }
      var w := new JoystickWrapper(device, info.value);
      return Ok(w);
    }

    /** `_init_axes`: one input per axis map entry, keyed by its axis index. */
    static method InitAxes(device: Uuid, axisMap: seq<int>) returns (axes: map<int, CachedInput>)
      ensures forall a :: a in axes <==> a in axisMap
      ensures forall a :: a in axes ==> axes[a].device == device && axes[a].index == a
    {
      axes := map[];
      var i := 0;
      while i < |axisMap|
        invariant 0 <= i <= |axisMap|
        invariant forall a :: a in axes <==> a in axisMap[..i]
        invariant forall a :: a in axes ==> axes[a].device == device && axes[a].index == a
      {
        var aid := axisMap[i];
        var input := new CachedInput(device, aid);
        axes := axes[aid := input];
        assert axisMap[..i + 1] == axisMap[..i] + [aid];
        i := i + 1;
      }
      assert axisMap[..i] == axisMap;
    }

    /** `_init_buttons` and `_init_hats`: an unused slot 0, then inputs numbered 1..n. */
    static method InitNumbered(device: Uuid, n: nat) returns (inputs: seq<CachedInput?>)
      ensures Numbered(inputs, device, n)
    {
      inputs := [null];
      var i := 0;
      while i < n
        invariant 0 <= i <= n
        invariant Numbered(inputs, device, i)
      {
        var input := new CachedInput(device, i + 1);
        inputs := inputs + [input];
        i := i + 1;
      }
    }

    /** `axis_count`: the driver's axis count, which is the length of the axis map. */
    function AxisCount(): (r: nat)
      ensures r == |info.axisMap|
    {
      |info.axisMap|
    }

    /** `axis`: the axis with that AxisNames index, GremlinError when the device has none. */
    function Axis(index: int): (r: Result<CachedInput>)
      requires Valid()
      ensures r.Ok? <==> index in info.axisMap
      ensures r.Ok? ==> r.value.index == index && r.value.device == device
      ensures r.Err? ==> r.fault == GremlinError
    {
      if index !in axes then Err(GremlinError) else Ok(axes[index])
    }

    /** `button`: buttons are numbered from 1; anything outside 1..count raises GremlinError. */
    function Button(index: int): (r: Result<CachedInput>)
      requires Valid()
      ensures r.Ok? <==> 1 <= index <= info.buttonCount
      ensures r.Ok? ==> r.value.index == index && r.value.device == device
      ensures r.Err? ==> r.fault == GremlinError
    {
      if !(0 < index < |buttons|) then Err(GremlinError) else var b: CachedInput := buttons[index]; Ok(b)
    }

    /** `hat`: hats are numbered from 1; anything outside 1..count raises GremlinError. */
    function Hat(index: int): (r: Result<CachedInput>)
      requires Valid()
      ensures r.Ok? <==> 1 <= index <= info.hatCount
      ensures r.Ok? ==> r.value.index == index && r.value.device == device
      ensures r.Err? ==> r.fault == GremlinError
    {
      if !(0 < index < |hats|) then Err(GremlinError) else var h: CachedInput := hats[index]; Ok(h)
    }

    /** `is_axis_valid`: some axis of the device carries that AxisNames index. */
    method IsAxisValid(axisIndex: int) returns (r: bool)
      ensures r <==> axisIndex in info.axisMap
    {
      var i := 0;
      while i < |info.axisMap|
        invariant 0 <= i <= |info.axisMap|
        invariant axisIndex !in info.axisMap[..i]
      {
        if info.axisMap[i] == axisIndex {
          return true;
        }
        assert info.axisMap[..i + 1] == info.axisMap[..i] + [info.axisMap[i]];
        i := i + 1;
      }
      assert info.axisMap[..i] == info.axisMap;
      return false;
    }

    /** `axis_reverse_lookup`: one plus the position of the first axis with that index; GremlinError when none has it. */
    method AxisReverseLookup(axisIndex: int) returns (r: Result<int>)
      ensures r.Ok? <==> axisIndex in info.axisMap
      ensures r.Ok? ==> r.value == FirstIndex(info.axisMap, axisIndex) + 1
      ensures r.Err? ==> r.fault == GremlinError
    {
      var i := 0;
      while i < |info.axisMap|
        invariant 0 <= i <= |info.axisMap|
        invariant forall j :: 0 <= j < i ==> info.axisMap[j] != axisIndex
      {
        if info.axisMap[i] == axisIndex {
          return Ok(i + 1);
        }
        i := i + 1;
      }
      return Err(GremlinError);
    }
  }

  /** Slot 0 is empty and slot i (1 <= i <= n) holds input number i of the device. */
  ghost predicate Numbered(inputs: seq<CachedInput?>, device: Uuid, n: nat)
  {
    && |inputs| == n + 1
    && inputs[0] == null
    && forall i :: 1 <= i <= n ==> inputs[i] != null && inputs[i].index == i && inputs[i].device == device
  }

  // ---------------------------------------------------------------------
  // The device cache

  /** What `Joystick[guid]` hands out: the intermediate output device or a wrapped joystick. */
  datatype CachedDevice =
    | IoDevice(io: IntermediateOutputs.IntermediateOutput)
    | PhysicalDevice(joystick: JoystickWrapper)

  /**
   * `Joystick`, a singleton: devices are built on first access and cached.
   * The cache is a class attribute of the source; the one instance holds it here.
   */
  class Joystick {
    /** `devices`. */
    var devices: map<Uuid, CachedDevice>

    constructor()
      ensures devices == map[]
    {
      devices := map[];
    }

    /**
     * `__getitem__`: a cached device is returned as is. Otherwise the
     * intermediate output guid (`ioGuid`) gets the intermediate output
     * registry (`io`, the one instance `IntermediateOutput()` returns), a
     * device the driver knows (`infos`) a new wrapper, and anything else
     * raises GremlinError; a new device is cached.
     */
    method Get(guid: Uuid, ioGuid: Uuid, io: IntermediateOutputs.IntermediateOutput, infos: map<Uuid, DeviceInfo>)
      returns (r: Result<CachedDevice>)
      modifies this
      ensures guid in old(devices) ==> r == Ok(old(devices)[guid]) && devices == old(devices)
      ensures guid !in old(devices) && guid != ioGuid && guid !in infos ==> r == Err(GremlinError) && devices == old(devices)
      ensures guid !in old(devices) && guid == ioGuid ==> r == Ok(IoDevice(io))
      ensures guid !in old(devices) && guid != ioGuid && guid in infos ==>
                r.Ok? && r.value.PhysicalDevice? && r.value.joystick.Valid() &&
                r.value.joystick.device == guid && r.value.joystick.info == infos[guid]
      ensures r.Ok? ==> devices == old(devices)[guid := r.value]
    {
      if guid !in devices {
        if guid == ioGuid {
          devices := devices[guid := IoDevice(io)];
        } else {
          var w := JoystickWrapper.Create(guid, if guid in infos then Some(infos[guid]) else None);
          if w.Err? {
            return Err(GremlinError);
          }
          devices := devices[guid := PhysicalDevice(w.value)];
        }
      }
      return Ok(devices[guid]);
    }
  }
}
