// The device models of gremlin/ui/device.py: how an input is named for
// display, the device database that maps a controller's (product id,
// vendor id) pair to input labels, the mapping between a device's linear
// row index and its (input type, input id) pairs, and the selection of an
// intermediate-output input by guid.
module DeviceModels {
  import opened PyCore
  import opened GremlinTypes
  import IntermediateOutputs

  // ---------------------------------------------------------------------
  // Input names (the stripping of a label is PyCore.Strip)

  /** The three values the "input-name-display-mode" option offers. */
  datatype DisplayMode = Numerical | NumericalPlusLabel | LabelOnly

  /** The option text of each display mode. */
  function ModeText(m: DisplayMode): string
  {
    match m
    case Numerical => "Numerical"
    case NumericalPlusLabel => "Numerical + Label"
    case LabelOnly => "Label"
  }

  /** The option's valid texts, in the order the registration lists them. */
  const ValidModeTexts: seq<string> := ["Numerical", "Numerical + Label", "Label"]

  /** The default the option is registered with, as written. */
  const RegisteredDefault: string := "Numerical & Label"

  /** The default the registration evidently means: the valid text of the same mode. */
  const IntendedDefault: DisplayMode := NumericalPlusLabel

  /** The mode an option text names; None for a text that is not one of the valid options. */
  function ParseMode(text: string): (r: Option<DisplayMode>)
    ensures r.Some? <==> text in ValidModeTexts
    ensures r.Some? ==> ModeText(r.value) == text
  {
    if text == "Numerical" then Some(Numerical)
    else if text == "Numerical + Label" then Some(NumericalPlusLabel)
    else if text == "Label" then Some(LabelOnly)
    else None
  }

  /** Every mode's text reads back as that mode. */
  lemma ModeTextRoundTrip(m: DisplayMode)
    ensures ParseMode(ModeText(m)) == Some(m)
    ensures ModeText(m) in ValidModeTexts
  {
  }

  /** The registered default is none of the valid option texts. */
  lemma RegisteredDefaultIsNotAnOption()
    ensures ParseMode(RegisteredDefault).None?
    ensures RegisteredDefault !in ValidModeTexts
  {
  }

  /** `DeviceMapping`: the labels a device database gives a device's inputs, by input name. */
  datatype DeviceMapping = DeviceMapping(inputMap: map<string, string>)
  {
    /** Whether the input has a label that is not blank. */
    predicate HasLabel(name: string)
    {
      name in inputMap && Strip(inputMap[name]) != []
    }

    /**
     * `input_name` as written, with the option's text as `mode`: the name
     * itself when the mode is "Numerical" or the input has no label, and
     * None for any text other than the three options.
     */
    function InputNameAsWritten(mode: string, name: string): (r: Option<string>)
      ensures mode == "Numerical" || !HasLabel(name) ==> r == Some(name)
      ensures r.None? <==> ParseMode(mode).None? && HasLabel(name)
    {
      if mode == "Numerical" || name !in inputMap then Some(name)
      else
        var shown := Strip(inputMap[name]);
        if |shown| == 0 then Some(name)
        else if mode == "Numerical + Label" then Some(name + " - " + shown)
        else if mode == "Label" then Some(shown)
        else None
    }

    /**
     * `input_name` over the three modes: the name itself for Numerical or
     * an input without label, "name - label" for NumericalPlusLabel, the
     * label alone for LabelOnly.
     */
    function InputName(mode: DisplayMode, name: string): (r: string)
      ensures mode == Numerical || !HasLabel(name) ==> r == name
      ensures mode != LabelOnly ==> |name| <= |r| && r[..|name|] == name
      ensures mode == LabelOnly && HasLabel(name) ==> r == Strip(inputMap[name]) && r != []
      ensures mode == NumericalPlusLabel && HasLabel(name) ==>
                r == name + " - " + Strip(inputMap[name]) && |r| > |name| + 3
    {
      if !HasLabel(name) then name
      else
        match mode
        case Numerical => name
        case NumericalPlusLabel =>
          var r := name + " - " + Strip(inputMap[name]);
          assert r[..|name|] == name;
          r
        case LabelOnly => Strip(inputMap[name])
    }
  }

  /** On the three valid option texts, `input_name` as written and the three-mode version agree. */
  lemma AsWrittenAgreesOnValidModes(dm: DeviceMapping, mode: DisplayMode, name: string)
    ensures dm.InputNameAsWritten(ModeText(mode), name) == Some(dm.InputName(mode, name))
  {
  }

  /**
   * With the option left at its registered default, every labelled input
   * gets None for a name, where the evidently intended default shows
   * "name - label".
   */
  lemma RegisteredDefaultLosesLabelledNames(dm: DeviceMapping, name: string)
    requires dm.HasLabel(name)
    ensures dm.InputNameAsWritten(RegisteredDefault, name).None?
    ensures dm.InputName(IntendedDefault, name) == name + " - " + Strip(dm.inputMap[name])
  {
  }

  /** "Trigger" is a label that is not blank. */
  lemma TriggerIsALabel()
    ensures DeviceMapping(map["Button 1" := "Trigger"]).HasLabel("Button 1")
  {
    assert StripLeft("Trigger") == "Trigger";
  }

  /** A concrete input that shows the default's missing name. */
  lemma RegisteredDefaultExample()
    ensures DeviceMapping(map["Button 1" := "Trigger"]).InputNameAsWritten(RegisteredDefault, "Button 1") == None
  {
    TriggerIsALabel();
    RegisteredDefaultLosesLabelledNames(DeviceMapping(map["Button 1" := "Trigger"]), "Button 1");
  }

  // ---------------------------------------------------------------------
  // JSON values of the device database, and the Python operations on them

  /** A value `json.load` produces (numbers are taken to be integers). */
  datatype Json =
    | JNull
    | JBool(b: bool)
    | JNumber(n: int)
    | JString(s: string)
    | JArray(items: seq<Json>)
    | JObject(fields: map<string, Json>)

  /** `sub` occurs in `s` at position i. */
  predicate OccursAt(sub: string, s: string, i: nat)
  {
    i + |sub| <= |s| && s[i..i + |sub|] == sub
  }

  predicate IsSubstring(sub: string, s: string)
  {
    exists i: nat :: i <= |s| && OccursAt(sub, s, i)
  }

  /** `key in v`: a dict key, a list element, a substring; TypeError for anything else. */
  function PyContains(v: Json, key: string): (r: Result<bool>)
    ensures r.Err? <==> !(v.JObject? || v.JArray? || v.JString?)
    ensures r.Err? ==> r.fault == TypeError
  {
    match v
    case JObject(fields) => Ok(key in fields)
    case JArray(items) => Ok(JString(key) in items)
    case JString(s) => Ok(IsSubstring(key, s))
    case _ => Err(TypeError)
  }

  /** `len(v)`: TypeError for a value without a length. */
  function PyLen(v: Json): (r: Result<nat>)
    ensures r.Err? <==> !(v.JObject? || v.JArray? || v.JString?)
    ensures r.Err? ==> r.fault == TypeError
    ensures v.JObject? ==> r == Ok(|v.fields|)
  {
    match v
    case JObject(fields) => Ok(|fields|)
    case JArray(items) => Ok(|items|)
    case JString(s) => Ok(|s|)
    case _ => Err(TypeError)
  }

  /** `v[key]` with a string key: KeyError for a missing key, TypeError for a value that is not a dict. */
  function PyLookup(v: Json, key: string): (r: Result<Json>)
    ensures r.Ok? <==> v.JObject? && key in v.fields
    ensures r.Ok? ==> r.value == v.fields[key]
    ensures r.Err? ==> r.fault == (if v.JObject? then KeyError else TypeError)
  {
    match v
    case JObject(fields) => if key in fields then Ok(fields[key]) else Err(KeyError)
    case _ => Err(TypeError)
  }

  /** `v == n` for an integer `n`: a JSON number of that value, or a boolean (True is 1, False is 0). */
  predicate PyEqualsInt(v: Json, n: int)
  {
    match v
    case JNumber(k) => k == n
    case JBool(b) => (if b then 1 else 0) == n
    case _ => false
  }

  // ---------------------------------------------------------------------
  // Validating the database: `_parse_device_db`

  /** The device entry test: `"product_id" in dev and "vendor_id" in dev and "mapping" in dev`. */
  function HasDeviceFields(dev: Json): (r: Result<bool>)
    ensures r.Err? <==> !(dev.JObject? || dev.JArray? || dev.JString?)
    ensures r.Err? ==> r.fault == TypeError
    ensures r == Ok(true) <==>
              && PyContains(dev, "product_id") == Ok(true)
              && PyContains(dev, "vendor_id") == Ok(true)
              && PyContains(dev, "mapping") == Ok(true)
  {
    match PyContains(dev, "product_id")
    case Err(f) => Err(f)
    case Ok(false) => Ok(false)
    case Ok(true) =>
      match PyContains(dev, "vendor_id")
      case Err(f) => Err(f)
      case Ok(false) => Ok(false)
      case Ok(true) => PyContains(dev, "mapping")
  }

  /**
   * The device loop over a list of entries: whether every entry passed so
   * far, and how many did; the first entry the test cannot be applied to
   * raises.
   */
  function ScanDevices(items: seq<Json>): (r: Result<(bool, nat)>)
    ensures r.Ok? ==> r.value.1 <= |items|
    ensures r.Err? ==> r.fault == TypeError
  {
    if items == [] then Ok((true, 0))
    else
      match ScanDevices(items[..|items| - 1])
      case Err(f) => Err(f)
      case Ok(state) =>
        match HasDeviceFields(items[|items| - 1])
        case Err(f) => Err(f)
        case Ok(true) => Ok((state.0, state.1 + 1))
        case Ok(false) => Ok((false, state.1))
  }

  /** The scan accepts exactly when every entry has the three fields, and then it counts them all. */
  lemma {:induction false} ScanAcceptsExactly(items: seq<Json>)
    ensures (ScanDevices(items).Ok? && ScanDevices(items).value.0) <==>
              forall i :: 0 <= i < |items| ==> HasDeviceFields(items[i]) == Ok(true)
    ensures ScanDevices(items).Ok? && ScanDevices(items).value.0 ==> ScanDevices(items).value.1 == |items|
    decreases |items|
  {
    if items != [] {
      var n := |items| - 1;
      ScanAcceptsExactly(items[..n]);
      assert forall i :: 0 <= i < n ==> items[..n][i] == items[i];
    }
  }

  /** Once the scan of a prefix has raised, the scan of the whole list raises. */
  lemma {:induction false} ScanErrorSticks(items: seq<Json>, k: nat)
    requires k <= |items| && ScanDevices(items[..k]).Err?
    ensures ScanDevices(items).Err?
    decreases |items| - k
  {
    if k < |items| {
      assert items[..k + 1][..k] == items[..k];
      ScanErrorSticks(items, k + 1);
    } else {
      assert items[..k] == items;
    }
  }

  /**
   * What `_parse_device_db` answers for a database: KeyError without a
   * "devices" entry, TypeError for a device list or entry the checks
   * cannot be applied to, KeyError without a "mapping" entry, and
   * otherwise whether the top-level shape is right, every entry has its
   * fields and there is at least one device and one mapping.
   * A "devices" dict or string is walked key by key or character by
   * character without raising; its outcome does not matter, as the
   * top-level check has already failed.
   */
  function DeviceDbVerdict(db: map<string, Json>): (r: Result<bool>)
    ensures "devices" !in db ==> r == Err(KeyError)
    ensures r.Err? ==> r.fault in {KeyError, TypeError}
  {
    var top := "mapping" in db && db["mapping"].JObject? && "devices" in db && db["devices"].JArray?;
    if "devices" !in db then Err(KeyError)
    else
      var scan :=
        match db["devices"]
        case JArray(items) => ScanDevices(items)
        case JObject(_) => Ok((false, 0))
        case JString(_) => Ok((false, 0))
        case _ => Err(TypeError);
      if scan.Err? then Err(scan.fault)
      else if "mapping" !in db then Err(KeyError)
      else
        match PyLen(db["mapping"])
        case Err(f) => Err(f)
        case Ok(n) => Ok(top && scan.value.0 && scan.value.1 > 0 && n > 0)
  }

  /**
   * A database passes exactly when "mapping" is a non-empty dict and
   * "devices" a non-empty list whose every entry has "product_id",
   * "vendor_id" and "mapping".
   */
  lemma DeviceDbAcceptsExactly(db: map<string, Json>)
    ensures DeviceDbVerdict(db) == Ok(true) <==>
              && "mapping" in db && db["mapping"].JObject? && |db["mapping"].fields| > 0
              && "devices" in db && db["devices"].JArray? && |db["devices"].items| > 0
              && forall i :: 0 <= i < |db["devices"].items| ==> HasDeviceFields(db["devices"].items[i]) == Ok(true)
  {
    if "devices" in db && db["devices"].JArray? {
      ScanAcceptsExactly(db["devices"].items);
    }
  }

  /**
   * `_parse_device_db`: the top-level check sets the flag, the loop over
   * the devices clears it for an entry without its fields and counts the
   * others, and the answer needs the flag, a device and a mapping.
   */
  method ParseDeviceDb(db: map<string, Json>) returns (r: Result<bool>)
    ensures r == DeviceDbVerdict(db)
  {
    var successful := true;
    if !("mapping" in db && db["mapping"].JObject? && "devices" in db && db["devices"].JArray?) {
      successful := false;
    }
    if "devices" !in db {
      return Err(KeyError);
    }
    var deviceCount := 0;
    match db["devices"] {
      case JArray(items) =>
        var i := 0;
        while i < |items|
          invariant 0 <= i <= |items|
          invariant ScanDevices(items[..i]).Ok?
          invariant successful == ("mapping" in db && db["mapping"].JObject? && ScanDevices(items[..i]).value.0)
          invariant deviceCount == ScanDevices(items[..i]).value.1
        {
          assert items[..i + 1][..i] == items[..i];
          var fields := HasDeviceFields(items[i]);
          if fields.Err? {
            ScanErrorSticks(items, i + 1);
            return Err(TypeError);
          }
          if !fields.value {
            successful := false;
          } else {
            deviceCount := deviceCount + 1;
          }
          i := i + 1;
        }
        assert items[..i] == items;
      case JObject(_) =>
      case JString(_) =>
      case _ =>
        return Err(TypeError);
    }
    if "mapping" !in db {
      return Err(KeyError);
    }
    var mappingCount := PyLen(db["mapping"]);
    if mappingCount.Err? {
      return Err(mappingCount.fault);
    }
    r := Ok(successful && deviceCount > 0 && mappingCount.value > 0);
  }

  /** The database `_load` falls back to: revision 0, no devices, no mappings. */
  const DefaultDb: map<string, Json> := map["revision" := JNumber(0), "devices" := JArray([]), "mapping" := JObject(map[])]

  /** The fallback itself would not pass the check: it lists no device. */
  lemma DefaultDbFails()
    ensures DeviceDbVerdict(DefaultDb) == Ok(false)
  {
    assert ScanDevices([]) == Ok((true, 0));
  }

  /** `_parse_device_db` on whatever `json.load` returned: a value that is not a dict has no `get`. */
  function ParseLoaded(v: Json): (r: Result<bool>)
    ensures !v.JObject? ==> r == Err(AttributeError)
    ensures r == Ok(true) ==> v.JObject? && DeviceDbVerdict(v.fields) == Ok(true)
  {
    if v.JObject? then DeviceDbVerdict(v.fields) else Err(AttributeError)
  }

  /**
   * `_load` as written, with the file test and the result of `json.load`
   * (None for a decoding error) as parameters and `current` for the
   * database already held: a file that cannot be read changes nothing,
   * and the parse runs even on the empty dict left by a decoding error.
   */
  function LoadAsWritten(accessible: bool, loaded: Option<Json>, current: Option<map<string, Json>>): (r: Result<Option<map<string, Json>>>)
    ensures !accessible ==> r == Ok(current)
    ensures accessible && loaded.Some? && ParseLoaded(loaded.value) == Ok(true) ==> r == Ok(Some(loaded.value.fields))
    ensures accessible && loaded.Some? && ParseLoaded(loaded.value) == Ok(false) ==> r == Ok(Some(DefaultDb))
    ensures accessible && loaded.Some? && ParseLoaded(loaded.value).Err? ==> r == Err(ParseLoaded(loaded.value).fault)
  {
    if !accessible then Ok(current)
    else
      var data := if loaded.Some? then loaded.value else JObject(map[]);
      match ParseLoaded(data)
      case Err(f) => Err(f)
      case Ok(passed) => if loaded.Some? && passed then Ok(Some(data.fields)) else Ok(Some(DefaultDb))
  }

  /** A database file that does not decode makes `_load` raise KeyError instead of falling back. */
  lemma UndecodableFileRaises(current: Option<map<string, Json>>)
    ensures LoadAsWritten(true, None, current) == Err(KeyError)
  {
  }

  /** A stored database is the fallback or one that passed the check. */
  predicate Acceptable(db: map<string, Json>)
  {
    db == DefaultDb || DeviceDbVerdict(db) == Ok(true)
  }

  // ---------------------------------------------------------------------
  // Looking a device up: `get_mapping`

  /** What the model knows of a connected device (`dill.DeviceSummary`). */
  datatype DeviceSummary = DeviceSummary(
    guid: Uuid,
    productId: int,
    vendorId: int,
    axisCount: nat,
    buttonCount: nat,
    hatCount: nat,
    /** `axis_map[i].axis_index` */
    axisMap: seq<int>)

  /**
   * `_device_matches`: the product ids are compared first, the vendor ids
   * only when those agree; an entry that is not a dict, or lacks the key,
   * raises.
   */
  function DeviceMatches(dev: Json, productId: int, vendorId: int): (r: Result<bool>)
    ensures r.Err? <==> !dev.JObject? || "product_id" !in dev.fields ||
                        (PyEqualsInt(dev.fields["product_id"], productId) && "vendor_id" !in dev.fields)
    ensures r.Ok? ==> (r.value <==> PyEqualsInt(dev.fields["product_id"], productId) && PyEqualsInt(dev.fields["vendor_id"], vendorId))
  {
    match PyLookup(dev, "product_id")
    case Err(f) => Err(f)
    case Ok(p) =>
      if !PyEqualsInt(p, productId) then Ok(false)
      else
        match PyLookup(dev, "vendor_id")
        case Err(f) => Err(f)
        case Ok(v) => Ok(PyEqualsInt(v, vendorId))
  }

  /**
   * The search loop of `get_mapping` over the device entries: the first
   * matching entry decides. Its mapping name is looked up among the
   * mappings (a list or dict as name cannot be hashed and raises), and a
   * name that is not there gives None; no matching entry gives None.
   */
  function MappingSearch(devices: seq<Json>, mappings: map<string, Json>, productId: int, vendorId: int): (r: Result<Option<Json>>)
    ensures r.Ok? && r.value.Some? ==> r.value.value in mappings.Values
  {
    if devices == [] then Ok(None)
    else
      match DeviceMatches(devices[0], productId, vendorId)
      case Err(f) => Err(f)
      case Ok(false) => MappingSearch(devices[1..], mappings, productId, vendorId)
      case Ok(true) =>
        match PyLookup(devices[0], "mapping")
        case Err(f) => Err(f)
        case Ok(name) =>
          if name.JArray? || name.JObject? then Err(TypeError)
          else if name.JString? && name.s in mappings then Ok(Some(mappings[name.s]))
          else Ok(None)
  }

  /** A device entry with both ids and a mapping name. */
  predicate WellFormedEntry(dev: Json)
  {
    && dev.JObject?
    && "product_id" in dev.fields && "vendor_id" in dev.fields
    && "mapping" in dev.fields && dev.fields["mapping"].JString?
  }

  predicate EntryMatches(dev: Json, productId: int, vendorId: int)
    requires WellFormedEntry(dev)
  {
    PyEqualsInt(dev.fields["product_id"], productId) && PyEqualsInt(dev.fields["vendor_id"], vendorId)
  }

  /** The position of the first entry for the device, if any. */
  function FirstMatching(devices: seq<Json>, productId: int, vendorId: int): (r: Option<nat>)
    requires forall i :: 0 <= i < |devices| ==> WellFormedEntry(devices[i])
    ensures r.Some? ==> r.value < |devices| && EntryMatches(devices[r.value], productId, vendorId)
    ensures r.Some? ==> forall j :: 0 <= j < r.value ==> !EntryMatches(devices[j], productId, vendorId)
    ensures r.None? ==> forall j :: 0 <= j < |devices| ==> !EntryMatches(devices[j], productId, vendorId)
  {
    if devices == [] then None
    else if EntryMatches(devices[0], productId, vendorId) then Some(0)
    else
      var rest := FirstMatching(devices[1..], productId, vendorId);
      assert forall j :: 1 <= j < |devices| ==> devices[j] == devices[1..][j - 1];
      if rest.None? then None else Some(rest.value + 1)
  }

  /**
   * Over well-formed entries the search never raises, and it answers with
   * the mapping named by the first entry for the device, or None when no
   * entry is for the device or its mapping name is unknown.
   */
  lemma {:induction false} MappingSearchFindsFirst(devices: seq<Json>, mappings: map<string, Json>, productId: int, vendorId: int)
    requires forall i :: 0 <= i < |devices| ==> WellFormedEntry(devices[i])
    ensures var first := FirstMatching(devices, productId, vendorId);
            MappingSearch(devices, mappings, productId, vendorId) ==
              if first.None? then Ok(None)
              else
                var name := devices[first.value].fields["mapping"].s;
                if name in mappings then Ok(Some(mappings[name])) else Ok(None)
    decreases |devices|
  {
    if devices != [] && !EntryMatches(devices[0], productId, vendorId) {
      MappingSearchFindsFirst(devices[1..], mappings, productId, vendorId);
    }
  }

  /** `DeviceDatabase`: the database `_load` leaves (None until a readable file has been loaded). */
  class DeviceDatabase {
    var deviceDb: Option<map<string, Json>>

    ghost predicate Valid()
      reads this
    {
      deviceDb.Some? ==> Acceptable(deviceDb.value)
    }

    constructor()
      ensures deviceDb == None && Valid()
    {
      deviceDb := None;
    }

    /**
     * `_load` with the parse applied only to data that did load: a file
     * that does not decode gives the fallback database; otherwise the
     * outcome is that of LoadAsWritten.
     */
    method Load(accessible: bool, loaded: Option<Json>) returns (o: Outcome)
      requires Valid()
      modifies this
      ensures Valid()
      ensures accessible && loaded.None? ==> o == Done && deviceDb == Some(DefaultDb)
      ensures !(accessible && loaded.None?) ==>
                match LoadAsWritten(accessible, loaded, old(deviceDb))
                case Ok(db) => o == Done && deviceDb == db
                case Err(f) => o == Raised(f) && deviceDb == old(deviceDb)
    {
      if !accessible {
        return Done;
      }
      if loaded.None? {
        deviceDb := Some(DefaultDb);
        return Done;
      }
      var passed := ParseLoaded(loaded.value);
      if passed.Err? {
        return Raised(passed.fault);
      }
      if passed.value {
        deviceDb := Some(loaded.value.fields);
      } else {
        deviceDb := Some(DefaultDb);
      }
      o := Done;
    }

    /** `get_mapping` on the database held: None for no device, AttributeError before any database was loaded. */
    function MappingFor(device: Option<DeviceSummary>): (r: Result<Option<Json>>)
      reads this
      requires Valid()
      ensures device.None? ==> r == Ok(None)
      ensures device.Some? && deviceDb.None? ==> r == Err(AttributeError)
      ensures device.Some? && deviceDb.Some? ==>
                var db := deviceDb.value;
                "devices" in db && db["devices"].JArray? && "mapping" in db && db["mapping"].JObject? &&
                r == MappingSearch(db["devices"].items, db["mapping"].fields, device.value.productId, device.value.vendorId)
    {
      if device.None? then Ok(None)
      else if deviceDb.None? then Err(AttributeError)
      else
        var db := deviceDb.value;
        DeviceDbAcceptsExactly(db);
        MappingSearch(db["devices"].items, db["mapping"].fields, device.value.productId, device.value.vendorId)
    }

    /** `get_mapping`: walks the entries in order and stops at the first for the device. */
    method GetMapping(device: Option<DeviceSummary>) returns (r: Result<Option<Json>>)
      requires Valid()
      ensures r == MappingFor(device)
    {
      if device.None? {
        return Ok(None);
      }
      if deviceDb.None? {
        return Err(AttributeError);
      }
      var db := deviceDb.value;
      DeviceDbAcceptsExactly(db);
      var devices := db["devices"].items;
      var mappings := db["mapping"].fields;
      var productId, vendorId := device.value.productId, device.value.vendorId;
      var i := 0;
      while i < |devices|
        invariant 0 <= i <= |devices|
        invariant MappingSearch(devices[i..], mappings, productId, vendorId) == MappingSearch(devices, mappings, productId, vendorId)
      {
        var matches := DeviceMatches(devices[i], productId, vendorId);
        if matches.Err? {
          return Err(matches.fault);
        }
        if matches.value {
          var name := PyLookup(devices[i], "mapping");
          if name.Err? {
            return Err(name.fault);
          }
          if name.value.JArray? || name.value.JObject? {
            return Err(TypeError);
          }
          if !(name.value.JString? && name.value.s in mappings) {
            return Ok(None);
          }
          return Ok(Some(mappings[name.value.s]));
        }
        assert devices[i..][1..] == devices[i + 1..];
        i := i + 1;
      }
      r := Ok(None);
    }
  }

  // ---------------------------------------------------------------------
  // One device's inputs: `Device`

  /** `Device`: the inputs of the device whose guid is selected, one row per input. */
  class Device {
    var device: Option<DeviceSummary>
    /** `_device_mapping`: what `get_mapping` found for the device. */
    var mapping: Option<Json>

    constructor()
      ensures device == None && mapping == None
    {
      device := None;
      mapping := None;
    }

    /** `rowCount`: all axes, buttons and hats; none without a device. */
    function RowCount(): (r: nat)
      reads this
      ensures device.None? ==> r == 0
      ensures device.Some? ==> r == device.value.axisCount + device.value.buttonCount + device.value.hatCount
    {
      if device.None? then 0 else device.value.axisCount + device.value.buttonCount + device.value.hatCount
    }

    /**
     * `_convert_index`: rows [0, a) are the axes in `axis_map` order, then
     * buttons 1..b, then hats from 1. Without a device it raises
     * AttributeError; a negative row reads `axis_map` from the end, and a
     * row past the last gives a hat number past the last.
     */
    function ConvertIndex(index: int): (r: Result<(InputType, int)>)
      reads this
      ensures device.None? ==> r == Err(AttributeError)
      ensures device.Some? && index < 0 ==>
                (r.Ok? <==> -index <= |device.value.axisMap|) && (r.Ok? ==> r.value.0 == JoystickAxis)
      ensures device.Some? && 0 <= index < device.value.axisCount && index < |device.value.axisMap| ==>
                r == Ok((JoystickAxis, device.value.axisMap[index]))
      ensures device.Some? && device.value.axisCount <= index < device.value.axisCount + device.value.buttonCount ==>
                r.Ok? && r.value.0 == JoystickButton && 1 <= r.value.1 <= device.value.buttonCount
      ensures device.Some? && device.value.axisCount + device.value.buttonCount <= index ==>
                r.Ok? && r.value.0 == JoystickHat && 1 <= r.value.1
                && (r.value.1 <= device.value.hatCount <==> index < RowCount())
    {
      if device.None? then Err(AttributeError)
      else
        var d := device.value;
        if index < d.axisCount then
          match PyIndex(d.axisMap, index)
          case Err(f) => Err(f)
          case Ok(axis) => Ok((JoystickAxis, axis))
        else if index < d.axisCount + d.buttonCount then Ok((JoystickButton, index + 1 - d.axisCount))
        else Ok((JoystickHat, index + 1 - d.axisCount - d.buttonCount))
    }

    /** The row of an input: the inverse of ConvertIndex. */
    function RowOf(t: InputType, id: int): (r: Option<nat>)
      reads this
      ensures r.Some? ==> device.Some?
      ensures r.Some? && t != JoystickAxis ==> r.value < RowCount()
      ensures r.Some? && t == JoystickAxis ==> r.value < |device.value.axisMap| && device.value.axisMap[r.value] == id
    {
      if device.None? then None
      else
        var d := device.value;
        match t
        case JoystickAxis => if id in d.axisMap then Some(FirstIndex(d.axisMap, id)) else None
        case JoystickButton => if 1 <= id <= d.buttonCount then Some(d.axisCount + id - 1) else None
        case JoystickHat => if 1 <= id <= d.hatCount then Some(d.axisCount + d.buttonCount + id - 1) else None
        case _ => None
    }

    /**
     * With one distinct axis index per axis, every row names an input and
     * that input's row is the row itself.
     */
    lemma ConvertIndexRoundTrip(index: int)
      requires device.Some? && |device.value.axisMap| == device.value.axisCount && Distinct(device.value.axisMap)
      requires 0 <= index < RowCount()
      ensures ConvertIndex(index).Ok?
      ensures RowOf(ConvertIndex(index).value.0, ConvertIndex(index).value.1) == Some(index)
    {
      var d := device.value;
      if index < d.axisCount {
        var k := FirstIndex(d.axisMap, d.axisMap[index]);
        assert k == index;
      }
    }

    /** Conversely, every input that has a row is the input of that row. */
    lemma RowOfRoundTrip(t: InputType, id: int)
      requires device.Some? && |device.value.axisMap| == device.value.axisCount
      requires RowOf(t, id).Some?
      ensures RowOf(t, id).value < RowCount()
      ensures ConvertIndex(RowOf(t, id).value) == Ok((t, id))
    {
    }

    /**
     * `_set_guid` with the device lookup's answer as `found`: the current
     * guid changes nothing; otherwise the device is replaced and its
     * mapping looked up in the database, which may raise after the device
     * has already been replaced.
     */
    method SetGuid(guid: Uuid, found: Option<DeviceSummary>, db: DeviceDatabase) returns (o: Outcome)
      requires db.Valid()
      modifies this
      ensures old(device).Some? && guid == old(device).value.guid ==>
                o == Done && device == old(device) && mapping == old(mapping)
      ensures !(old(device).Some? && guid == old(device).value.guid) ==>
                device == found &&
                match db.MappingFor(found)
                case Ok(m) => o == Done && mapping == m
                case Err(f) => o == Raised(f) && mapping == old(mapping)
    {
      if device.Some? && guid == device.value.guid {
        return Done;
      }
      device := found;
      var m := db.GetMapping(found);
      if m.Err? {
        return Raised(m.fault);
      }
      mapping := m.value;
      o := Done;
    }
  }

  // ---------------------------------------------------------------------
  // The device list: `DeviceListModel.guidAtIndex`

  class DeviceListModel {
    var devices: seq<DeviceSummary>

    constructor(devices: seq<DeviceSummary>)
      ensures this.devices == devices
    {
      this.devices := devices;
    }

    /** `guidAtIndex`: GremlinError outside [0, len), the device's guid inside. */
    function GuidAtIndex(index: int): (r: Result<Uuid>)
      reads this
      ensures r.Ok? <==> 0 <= index < |devices|
      ensures r.Ok? ==> r.value == devices[index].guid
      ensures r.Err? ==> r.fault == GremlinError
    {
      if !(0 <= index < |devices|) then Err(GremlinError) else Ok(devices[index].guid)
    }

    /** Every listed device's guid can be asked for, and each answer is the guid of a listed device. */
    lemma GuidAtIndexCoversDevices(d: DeviceSummary)
      ensures d in devices <==> exists index :: GuidAtIndex(index).Ok? && devices[index] == d
    {
      if d in devices {
        var index :| 0 <= index < |devices| && devices[index] == d;
        assert GuidAtIndex(index).Ok?;
      }
    }
  }

  // ---------------------------------------------------------------------
  // Selecting an intermediate-output input: `IODeviceInputsModel`

  /** The position of the last input with the guid, or 0 when none has it. */
  function LastGuidIndex(es: seq<IntermediateOutputs.IoInput>, g: Uuid): (r: nat)
    ensures (exists i :: 0 <= i < |es| && es[i].guid == g) ==>
              r < |es| && es[r].guid == g && forall j :: r < j < |es| ==> es[j].guid != g
    ensures (forall i :: 0 <= i < |es| ==> es[i].guid != g) ==> r == 0
  {
    if es == [] then 0
    else if es[|es| - 1].guid == g then |es| - 1
    else
      var r := LastGuidIndex(es[..|es| - 1], g);
      assert forall i :: 0 <= i < |es| - 1 ==> es[..|es| - 1][i] == es[i];
      r
  }

  class IoInputsModel {
    const io: IntermediateOutputs.IntermediateOutput
    /** `_valid_types`: None lists inputs of all three types. */
    var validTypes: Option<seq<InputType>>
    var currentIndex: nat
    var currentGuid: Option<Uuid>

    constructor(io: IntermediateOutputs.IntermediateOutput)
      ensures this.io == io && validTypes == None && currentIndex == 0 && currentGuid == None
    {
      this.io := io;
      validTypes := None;
      currentIndex := 0;
      currentGuid := None;
    }

    /**
     * `_set_current_guid`: a new guid selects the last listed input with
     * that guid, or position 0 when none has it; the current guid changes
     * nothing.
     */
    method SetCurrentGuid(guid: Uuid)
      modifies this
      ensures validTypes == old(validTypes)
      ensures old(currentGuid) == Some(guid) ==> currentIndex == old(currentIndex) && currentGuid == old(currentGuid)
      ensures old(currentGuid) != Some(guid) ==>
                currentGuid == Some(guid) && currentIndex == LastGuidIndex(io.InputsOfType(validTypes), guid)
    {
      if currentGuid != Some(guid) {
        currentGuid := Some(guid);
        currentIndex := LastPosition(io.InputsOfType(validTypes), guid);
      }
    }

    /** The loop of `_set_current_guid`: position 0 unless an input has the guid, then the last such position. */
    static method LastPosition(inputs: seq<IntermediateOutputs.IoInput>, guid: Uuid) returns (index: nat)
      ensures index == LastGuidIndex(inputs, guid)
    {
      index := 0;
      var i := 0;
      while i < |inputs|
        invariant 0 <= i <= |inputs|
        invariant index == LastGuidIndex(inputs[..i], guid)
      {
        assert inputs[..i + 1][..i] == inputs[..i];
        if inputs[i].guid == guid {
          index := i;
        }
        i := i + 1;
      }
      assert inputs[..i] == inputs;
    }
  }
}
