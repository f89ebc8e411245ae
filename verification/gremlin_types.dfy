// Values shared across the modelled modules: identifiers, the enumerations
// of gremlin/types.py (which is not part of this model; only the members the
// modelled code names are listed), and `util.clamp` from gremlin/util.py
// (also not part of this model; taken to bound a value into [lo, hi]).
module GremlinTypes {

  /** A `uuid.UUID`, carried as its canonical text "xxxxxxxx-xxxx-...". */
  datatype Uuid = Uuid(text: string)

  /** `str(guid).split("-")[0]`: the text up to the first dash. */
  function FirstGroup(s: string): (r: string)
    ensures |r| <= |s| && r == s[..|r|]
    ensures '-' !in r
    ensures |r| < |s| ==> s[|r|] == '-'
  {
    if s == [] || s[0] == '-' then [] else [s[0]] + FirstGroup(s[1..])
  }

  datatype InputType = JoystickAxis | JoystickButton | JoystickHat | Keyboard | Mouse

  /** `InputType.name`: the enum member's name, the first sort key of IO inputs. */
  function TypeName(t: InputType): string
  {
    match t
    case JoystickAxis => "JoystickAxis"
    case JoystickButton => "JoystickButton"
    case JoystickHat => "JoystickHat"
    case Keyboard => "Keyboard"
    case Mouse => "Mouse"
  }

  /** `InputType.to_string(t).capitalize()` for the three joystick input types. */
  function DisplayWord(t: InputType): string
  {
    match t
    case JoystickAxis => "Axis"
    case JoystickButton => "Button"
    case JoystickHat => "Hat"
    case Keyboard => "Keyboard"
    case Mouse => "Mouse"
  }

  datatype ActionActivationMode = Deactivated | Press | Release | Both | Disallowed

  datatype ActionProperty =
    | ActivateOnPress | ActivateOnRelease | ActivateOnBoth | ActivateDisabled | ReuseByDefault

  datatype HatDirection =
    | North | NorthEast | East | SouthEast | South | SouthWest | West | NorthWest

  /** A dynamically typed input value: None, a button state, an axis value or a hat direction. */
  datatype InputValue =
    | NoValue
    | BoolValue(b: bool)
    | RealValue(r: real)
    | HatValue(d: HatDirection)

  /** Python truthiness of an input value (an enum member is always truthy). */
  predicate Truthy(v: InputValue)
  {
    match v
    case NoValue => false
    case BoolValue(b) => b
    case RealValue(r) => r != 0.0
    case HatValue(_) => true
  }

  /** `util.clamp(value, lo, hi)`. */
  function Clamp(value: real, lo: real, hi: real): (r: real)
    requires lo <= hi
    ensures lo <= r <= hi
    ensures lo <= value <= hi ==> r == value
    ensures value < lo ==> r == lo
    ensures value > hi ==> r == hi
  {
    if value < lo then lo else if value > hi then hi else value
  }
}
