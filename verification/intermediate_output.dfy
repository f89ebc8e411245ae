// The intermediate-output registry of gremlin/intermediate_output.py: a
// virtual device whose axes, buttons and hats are created at run time and
// addressed by guid or by a unique label. Two dictionaries, guid -> input
// and label -> guid, are kept in lock-step.
module IntermediateOutputs {
  import opened PyCore
  import opened GremlinTypes

  /** One virtual input (`IntermediateOutput.Input` and its three subclasses). */
  datatype IoInput = IoInput(name: string, guid: Uuid, kind: InputType)

  /** What `_identifier_to_guid` accepts: a label or a guid. */
  datatype Identifier = ByLabel(name: string) | ByGuid(guid: Uuid)

  /** The types `create` can build (the keys of its `do_create` table). */
  predicate IsJoystickType(t: InputType)
  {
    t == JoystickAxis || t == JoystickButton || t == JoystickHat
  }

  const AllJoystickTypes: seq<InputType> := [JoystickAxis, JoystickButton, JoystickHat]

  /** `Input.suffix`: the first group of the guid's text. */
  function Suffix(guid: Uuid): string
  {
    FirstGroup(guid.text)
  }

  // ---------------------------------------------------------------------
  // Queries on the insertion-ordered input list

  predicate HasGuid(s: seq<IoInput>, g: Uuid)
  {
    exists i :: 0 <= i < |s| && s[i].guid == g
  }

  /** Position of the input with guid `g`. */
  function GuidPosition(s: seq<IoInput>, g: Uuid): (k: nat)
    requires HasGuid(s, g)
    ensures k < |s| && s[k].guid == g
    ensures forall j :: 0 <= j < k ==> s[j].guid != g
  {
    if s[0].guid == g then 0 else 1 + GuidPosition(s[1..], g)
  }

  /** The inputs whose type is listed, in their original order. */
  function OfTypes(s: seq<IoInput>, types: seq<InputType>): (r: seq<IoInput>)
    ensures |r| <= |s|
    ensures forall e :: e in r <==> e in s && e.kind in types
  {
    if s == [] then []
    else if s[0].kind in types then [s[0]] + OfTypes(s[1..], types)
    else OfTypes(s[1..], types)
  }

  /** Filtering keeps each element's multiplicity exactly when its type is listed. */
  lemma {:induction false} OfTypesCount(s: seq<IoInput>, types: seq<InputType>, e: IoInput)
    ensures multiset(OfTypes(s, types))[e] == if e.kind in types then multiset(s)[e] else 0
  {
    if s != [] {
      OfTypesCount(s[1..], types, e);
      assert s == [s[0]] + s[1..];
    }
  }

  /** Filtering two permutations of one list gives permutations of one list. */
  lemma OfTypesPermutation(s: seq<IoInput>, t: seq<IoInput>, types: seq<InputType>)
    requires multiset(s) == multiset(t)
    ensures multiset(OfTypes(s, types)) == multiset(OfTypes(t, types))
  {
    forall e ensures multiset(OfTypes(s, types))[e] == multiset(OfTypes(t, types))[e] {
      OfTypesCount(s, types, e);
      OfTypesCount(t, types, e);
    }
  }

  // ---------------------------------------------------------------------
  // Sorting by (type name, label), as `sorted(..., key=lambda x: (x.type.name, x.name))`

  function Key(e: IoInput): (string, string)
  {
    (TypeName(e.kind), e.name)
  }

  predicate SortedByKey(s: seq<IoInput>)
  {
    forall i, j :: 0 <= i < j < |s| ==> PairLe(Key(s[i]), Key(s[j]))
  }

  /** Puts `e` after every element whose key is not larger (a stable insertion). */
  function InsertByKey(s: seq<IoInput>, e: IoInput): (r: seq<IoInput>)
    ensures |r| == |s| + 1
    ensures multiset(r) == multiset(s) + multiset{e}
    ensures forall q :: q in r ==> q in s || q == e
  {
    if s == [] then [e]
    else if !PairLe(Key(s[|s| - 1]), Key(e)) then
      assert s == s[..|s| - 1] + [s[|s| - 1]];
      InsertByKey(s[..|s| - 1], e) + [s[|s| - 1]]
    else s + [e]
  }

  lemma {:induction false} InsertByKeySorted(s: seq<IoInput>, e: IoInput)
    requires SortedByKey(s)
    ensures SortedByKey(InsertByKey(s, e))
  {
    if s == [] {
      return;
    }
    var front, last := s[..|s| - 1], s[|s| - 1];
    if !PairLe(Key(last), Key(e)) {
      PairLeTotal(Key(last), Key(e));
      InsertByKeySorted(front, e);
      var q := InsertByKey(front, e);
      forall k | 0 <= k < |q| ensures PairLe(Key(q[k]), Key(last)) {
        if q[k] in front {
          var m :| 0 <= m < |front| && front[m] == q[k];
          assert s[m] == q[k];
        }
      }
    } else {
      var r := s + [e];
      forall i, j | 0 <= i < j < |r| ensures PairLe(Key(r[i]), Key(r[j])) {
        if j == |s| && i < |s| - 1 {
          PairLeTransitive(Key(s[i]), Key(last), Key(e));
        }
      }
    }
  }

  function SortByKey(s: seq<IoInput>): (r: seq<IoInput>)
    ensures |r| == |s|
    ensures multiset(r) == multiset(s)
    ensures SortedByKey(r)
  {
    if s == [] then []
    else
      assert s == s[..|s| - 1] + [s[|s| - 1]];
      InsertByKeySorted(SortByKey(s[..|s| - 1]), s[|s| - 1]);
      InsertByKey(SortByKey(s[..|s| - 1]), s[|s| - 1])
  }

  /** A sorted list keeps its order when only some of its elements are kept. */
  lemma {:induction false} OfTypesSorted(s: seq<IoInput>, types: seq<InputType>)
    requires SortedByKey(s)
    ensures SortedByKey(OfTypes(s, types))
  {
    if s != [] {
      OfTypesSorted(s[1..], types);
      var rest := OfTypes(s[1..], types);
      forall k | 0 <= k < |rest| ensures PairLe(Key(s[0]), Key(rest[k])) {
        var m :| 0 <= m < |s[1..]| && s[1..][m] == rest[k];
        assert s[m + 1] == rest[k];
      }
    }
  }

  // ---------------------------------------------------------------------
  // The registry

  /**
   * The label generated for an unlabelled input (lines 150-156), as the
   * source computes it: "<Type> <first guid group>", and when that is
   * taken, " - <time>" appended once without checking it again.
   */
  function GeneratedLabelAsWritten(kind: InputType, guid: Uuid, taken: set<string>, now: string): (l: string)
    ensures l == DisplayWord(kind) + " " + Suffix(guid) || l == DisplayWord(kind) + " " + Suffix(guid) + " - " + now
  {
    var first := DisplayWord(kind) + " " + Suffix(guid);
    if first in taken then first + " - " + now else first
  }

  /**
   * The appended label can itself be taken: once both the plain label and
   * the label with this time stamp are in use, the generated label is one
   * of them, so the new input would share a label with an old one.
   */
  lemma GeneratedLabelCanCollide(kind: InputType, guid: Uuid, now: string)
    ensures var first := DisplayWord(kind) + " " + Suffix(guid);
            var taken := {first, first + " - " + now};
            GeneratedLabelAsWritten(kind, guid, taken, now) in taken
  {
  }

  /**
   * The label generation with the recheck the source evidently intends: the
   * suffixed label is used only if it is free; otherwise there is no label
   * to use.
   */
  function GeneratedLabel(kind: InputType, guid: Uuid, taken: set<string>, now: string): (l: Option<string>)
    ensures l.Some? ==> l.value !in taken
    ensures l.Some? ==> l.value == GeneratedLabelAsWritten(kind, guid, taken, now)
    ensures l.None? <==> GeneratedLabelAsWritten(kind, guid, taken, now) in taken
  {
    var l := GeneratedLabelAsWritten(kind, guid, taken, now);
    if l in taken then None else Some(l)
  }

  /** Guids are unique and every input is an axis, button or hat. */
  predicate WellFormed(s: seq<IoInput>)
  {
    (forall i, j :: 0 <= i < j < |s| ==> s[i].guid != s[j].guid)
    && (forall i :: 0 <= i < |s| ==> IsJoystickType(s[i].kind))
  }

  /** The label map sends each input's label to its guid and holds no other label. */
  ghost predicate Indexed(s: seq<IoInput>, m: map<string, Uuid>)
  {
    (forall i :: 0 <= i < |s| ==> s[i].name in m && m[s[i].name] == s[i].guid)
    && (forall l :: l in m ==> exists i :: 0 <= i < |s| && s[i].name == l)
  }

  ghost predicate Registry(s: seq<IoInput>, m: map<string, Uuid>)
  {
    WellFormed(s) && Indexed(s, m)
  }

  /** Two inputs of a registry never share a label. */
  lemma RegistryLabelsUnique(s: seq<IoInput>, m: map<string, Uuid>, i: int, j: int)
    requires Registry(s, m) && 0 <= i < |s| && 0 <= j < |s| && i != j
    ensures s[i].name != s[j].name
  {
  }

  lemma RegistryAppend(s: seq<IoInput>, m: map<string, Uuid>, e: IoInput)
    requires Registry(s, m) && e.name !in m && !HasGuid(s, e.guid) && IsJoystickType(e.kind)
    ensures Registry(s + [e], m[e.name := e.guid])
  {
    var s', m' := s + [e], m[e.name := e.guid];
    forall l | l in m' ensures exists i :: 0 <= i < |s'| && s'[i].name == l {
      if l == e.name {
        assert s'[|s|].name == l;
      } else {
        var i :| 0 <= i < |s| && s[i].name == l;
        assert s'[i].name == l;
      }
    }
  }

  lemma RegistryRename(s: seq<IoInput>, m: map<string, Uuid>, k: int, newName: string)
    requires Registry(s, m) && 0 <= k < |s| && newName !in m
    ensures Registry(s[k := s[k].(name := newName)], m[newName := s[k].guid] - {s[k].name})
  {
    var s', m' := s[k := s[k].(name := newName)], m[newName := s[k].guid] - {s[k].name};
    forall i | 0 <= i < |s'| ensures s'[i].name in m' && m'[s'[i].name] == s'[i].guid {
      if i != k {
        assert s[i].name != s[k].name;
      }
    }
    forall l | l in m' ensures exists i :: 0 <= i < |s'| && s'[i].name == l {
      if l == newName {
        assert s'[k].name == l;
      } else {
        var i :| 0 <= i < |s| && s[i].name == l;
        assert i != k;
        assert s'[i].name == l;
      }
    }
  }

  /** Where element i of `s` without its element k came from. */
  lemma RemovedAt(s: seq<IoInput>, k: int, i: int)
    requires 0 <= k < |s| && 0 <= i < |s| - 1
    ensures (s[..k] + s[k + 1..])[i] == s[if i < k then i else i + 1]
  {
  }

  lemma WellFormedRemove(s: seq<IoInput>, k: int)
    requires WellFormed(s) && 0 <= k < |s|
    ensures WellFormed(s[..k] + s[k + 1..])
    ensures forall e :: e in s[..k] + s[k + 1..] ==> e.guid != s[k].guid
  {
    var s' := s[..k] + s[k + 1..];
    forall i, j | 0 <= i < j < |s'| ensures s'[i].guid != s'[j].guid {
      RemovedAt(s, k, i);
      RemovedAt(s, k, j);
    }
    forall i | 0 <= i < |s'| ensures IsJoystickType(s'[i].kind) {
      RemovedAt(s, k, i);
    }
    forall e | e in s' ensures e.guid != s[k].guid {
      var i :| 0 <= i < |s'| && s'[i] == e;
      RemovedAt(s, k, i);
    }
  }

  lemma IndexedRemove(s: seq<IoInput>, m: map<string, Uuid>, k: int)
    requires Registry(s, m) && 0 <= k < |s|
    ensures Indexed(s[..k] + s[k + 1..], m - {s[k].name})
  {
    var s', m' := s[..k] + s[k + 1..], m - {s[k].name};
    forall i | 0 <= i < |s'| ensures s'[i].name in m' && m'[s'[i].name] == s'[i].guid {
      RemovedAt(s, k, i);
      var j := if i < k then i else i + 1;
      RegistryLabelsUnique(s, m, j, k);
    }
    forall l | l in m' ensures exists i :: 0 <= i < |s'| && s'[i].name == l {
      var j :| 0 <= j < |s| && s[j].name == l;
      var i := if j < k then j else j - 1;
      RemovedAt(s, k, i);
    }
  }

  lemma RegistryRemove(s: seq<IoInput>, m: map<string, Uuid>, k: int)
    requires Registry(s, m) && 0 <= k < |s|
    ensures Registry(s[..k] + s[k + 1..], m - {s[k].name})
    ensures forall e :: e in s[..k] + s[k + 1..] ==> e.guid != s[k].guid
  {
    WellFormedRemove(s, k);
    IndexedRemove(s, m, k);
  }

  /** A permutation of the inputs of one type holds only inputs of that type, and as many. */
  lemma SameTypeMembers(es: seq<IoInput>, s: seq<IoInput>, kind: InputType)
    requires multiset(es) == multiset(OfTypes(s, [kind]))
    ensures |es| == |OfTypes(s, [kind])|
    ensures forall e :: e in es ==> e in s && e.kind == kind
  {
    assert |multiset(es)| == |multiset(OfTypes(s, [kind]))|;
    forall e | e in es ensures e in s && e.kind == kind {
      assert e in multiset(OfTypes(s, [kind]));
    }
  }

  /** The labels of a list of inputs, in order. */
  function LabelsOf(es: seq<IoInput>): (r: seq<string>)
    ensures |r| == |es|
    ensures forall i :: 0 <= i < |es| ==> r[i] == es[i].name
  {
    if es == [] then [] else [es[0].name] + LabelsOf(es[1..])
  }

  /** Every input of a well-formed list shows up among all axis, button and hat inputs. */
  lemma InAllTypes(s: seq<IoInput>, es: seq<IoInput>, i: int)
    requires WellFormed(s) && multiset(es) == multiset(OfTypes(s, AllJoystickTypes))
    requires 0 <= i < |s|
    ensures s[i] in es
  {
    assert s[i].kind in AllJoystickTypes;
    assert s[i] in OfTypes(s, AllJoystickTypes);
    assert s[i] in multiset(es);
  }

  /** The labels of a permutation of all joystick inputs are exactly the registered labels. */
  lemma LabelsCoverRegistry(s: seq<IoInput>, m: map<string, Uuid>, es: seq<IoInput>, l: string)
    requires Registry(s, m)
    requires multiset(es) == multiset(OfTypes(s, AllJoystickTypes))
    ensures l in LabelsOf(es) <==> l in m
  {
    var names := LabelsOf(es);
    if l in m {
      var i :| 0 <= i < |s| && s[i].name == l;
      InAllTypes(s, es, i);
      var k :| 0 <= k < |es| && es[k] == s[i];
      assert names[k] == l;
    }
    if l in names {
      var k :| 0 <= k < |names| && names[k] == l;
      assert es[k] in multiset(OfTypes(s, AllJoystickTypes));
      var i :| 0 <= i < |s| && s[i] == es[k];
    }
  }

  class IntermediateOutput {
    /** `_inputs`, in the dictionary's insertion order. */
    var inputs: seq<IoInput>
    /** `_label_lookup`. */
    var labelLookup: map<string, Uuid>

    /** The two dictionaries agree: see Registry. */
    ghost predicate Valid()
      reads this
    {
      Registry(inputs, labelLookup)
    }

    constructor ()
      ensures Valid() && inputs == [] && labelLookup == map[]
    {
      inputs := [];
      labelLookup := map[];
    }

    /** `_identifier_to_guid`: a label is looked up, a guid passes through. */
    function IdentifierToGuid(id: Identifier): (r: Result<Uuid>)
      reads this
      ensures id.ByGuid? ==> r == Ok(id.guid)
      ensures id.ByLabel? ==> (r.Ok? <==> id.name in labelLookup)
      ensures r.Err? ==> r.fault == GremlinError
      ensures Valid() && id.ByLabel? && r.Ok? ==>
                exists i :: 0 <= i < |inputs| && inputs[i].name == id.name && inputs[i].guid == r.value
    {
      match id
      case ByLabel(l) => if l in labelLookup then Ok(labelLookup[l]) else Err(GremlinError)
      case ByGuid(g) => Ok(g)
    }

    /** `__getitem__`: the input with that label or guid. */
    function Get(id: Identifier): (r: Result<IoInput>)
      reads this
      ensures r.Ok? ==> r.value in inputs
      ensures id.ByGuid? ==> (r.Ok? <==> HasGuid(inputs, id.guid))
      ensures r.Ok? && id.ByGuid? ==> r.value.guid == id.guid
      ensures Valid() && id.ByLabel? ==> (r.Ok? <==> id.name in labelLookup)
      ensures Valid() && r.Ok? && id.ByLabel? ==> r.value.name == id.name
      ensures r.Err? ==> r.fault in {GremlinError, KeyError}
    {
      match IdentifierToGuid(id)
      case Err(f) => Err(f)
      case Ok(g) => if HasGuid(inputs, g) then Ok(inputs[GuidPosition(inputs, g)]) else Err(KeyError)
    }

    /** `inputs_of_type`: the inputs of the listed types (all three when None), sorted by (type name, label). */
    function InputsOfType(types: Option<seq<InputType>>): (r: seq<IoInput>)
      reads this
      ensures SortedByKey(r)
      ensures multiset(r) == multiset(OfTypes(inputs, if types.None? then AllJoystickTypes else types.value))
      ensures |r| == |OfTypes(inputs, if types.None? then AllJoystickTypes else types.value)|
    {
      var ts := if types.None? then AllJoystickTypes else types.value;
      var sorted := SortByKey(inputs);
      OfTypesSorted(sorted, ts);
      OfTypesPermutation(sorted, inputs, ts);
      assert |multiset(OfTypes(sorted, ts))| == |multiset(OfTypes(inputs, ts))|;
      OfTypes(sorted, ts)
    }

    /** `labels_of_type`: the labels of `inputs_of_type`, in its order. */
    function LabelsOfType(types: Option<seq<InputType>>): (r: seq<string>)
      reads this
      ensures |r| == |InputsOfType(types)|
      ensures forall i :: 0 <= i < |r| ==> r[i] == InputsOfType(types)[i].name
    {
      LabelsOf(InputsOfType(types))
    }

    /** With every input a joystick input, the labels of all types are exactly the registered labels. */
    lemma AllLabelsRegistered(l: string)
      requires Valid()
      ensures l in LabelsOfType(None) <==> l in labelLookup
    {
      LabelsCoverRegistry(inputs, labelLookup, InputsOfType(None), l);
    }

    /** `input_by_offset`: the offset-th input of one type; a negative offset counts from the end. */
    function InputByOffset(kind: InputType, offset: int): (r: Result<IoInput>)
      reads this
      ensures offset >= |OfTypes(inputs, [kind])| ==> r == Err(GremlinError)
      ensures 0 <= offset < |OfTypes(inputs, [kind])| ==> r.Ok? && r.value == InputsOfType(Some([kind]))[offset]
      ensures offset < 0 ==> (r.Ok? <==> -offset <= |OfTypes(inputs, [kind])|)
      ensures offset < 0 && r.Ok? ==> r.value == InputsOfType(Some([kind]))[|OfTypes(inputs, [kind])| + offset]
      ensures r.Ok? ==> r.value in inputs && r.value.kind == kind
      ensures r.Err? ==> r.fault in {GremlinError, IndexError}
    {
      var es := InputsOfType(Some([kind]));
      SameTypeMembers(es, inputs, kind);
      if |es| <= offset then Err(GremlinError) else PyIndex(es, offset)
    }

    /** `axis_count`, `button_count` and `hat_count`: how many inputs have the type. */
    function CountOfType(kind: InputType): (n: nat)
      reads this
      ensures n == |OfTypes(inputs, [kind])|
      ensures n <= |inputs|
    {
      var es := InputsOfType(Some([kind]));
      SameTypeMembers(es, inputs, kind);
      |es|
    }

    /**
     * `create`, with the generated label rechecked (see GeneratedLabel).
     * An explicit label already in use, an explicit id already
     * registered, or a generated label still taken after the time suffix
     * raises GremlinError; a type other than axis, button or
     * hat raises KeyError; on any error nothing changes. Otherwise exactly
     * one input is appended and its label maps to its guid. `freshGuid`
     * stands for `uuid.uuid4()` and `now` for the text of `time.time()`.
     */
    method Create(kind: InputType, inputId: Option<Uuid>, name: Option<string>, freshGuid: Uuid, now: string)
      returns (o: Outcome)
      requires Valid()
      requires !HasGuid(inputs, freshGuid)
      modifies this
      ensures Valid()
      ensures name.Some? && name.value in old(labelLookup) ==> o == Raised(GremlinError)
      ensures inputId.Some? && HasGuid(old(inputs), inputId.value) ==> o == Raised(GremlinError)
      ensures !IsJoystickType(kind) ==> o.Raised?
      ensures name.None? && !(inputId.Some? && HasGuid(old(inputs), inputId.value))
              && GeneratedLabel(kind, if inputId.Some? then inputId.value else freshGuid, old(labelLookup).Keys, now).None?
              ==> o == Raised(GremlinError)
      ensures o == Done <==>
                IsJoystickType(kind)
                && !(name.Some? && name.value in old(labelLookup))
                && !(inputId.Some? && HasGuid(old(inputs), inputId.value))
                && !(name.None? && GeneratedLabel(kind, if inputId.Some? then inputId.value else freshGuid, old(labelLookup).Keys, now).None?)
      ensures o.Raised? ==> o.fault in {GremlinError, KeyError} && inputs == old(inputs) && labelLookup == old(labelLookup)
      ensures o == Done ==>
                var guid := if inputId.Some? then inputId.value else freshGuid;
                exists l :: l !in old(labelLookup)
                  && (name.Some? ==> l == name.value)
                  && (name.None? ==> Some(l) == GeneratedLabel(kind, guid, old(labelLookup).Keys, now))
                  && inputs == old(inputs) + [IoInput(l, guid, kind)]
                  && labelLookup == old(labelLookup)[l := guid]
    {
      AllLabelsRegistered(if name.Some? then name.value else "");
      if name.Some? && name.value in LabelsOfType(None) {
        return Raised(GremlinError);
      }
      var guid := freshGuid;
      if inputId.Some? {
        if HasGuid(inputs, inputId.value) {
          return Raised(GremlinError);
        }
        guid := inputId.value;
      }
      var chosen: string;
      if name.None? {
        var generated := GeneratedLabel(kind, guid, labelLookup.Keys, now);
        if generated.None? {
          return Raised(GremlinError);
        }
        chosen := generated.value;
      } else {
        chosen := name.value;
      }
      if !IsJoystickType(kind) {
        return Raised(KeyError);
      }
      Register(IoInput(chosen, guid, kind));
      o := Done;
    }

    /** Stores a new input at the end of `_inputs` and its label in `_label_lookup`. */
    method Register(e: IoInput)
      requires Valid() && e.name !in labelLookup && !HasGuid(inputs, e.guid) && IsJoystickType(e.kind)
      modifies this
      ensures Valid()
      ensures inputs == old(inputs) + [e] && labelLookup == old(labelLookup)[e.name := e.guid]
    {
      RegistryAppend(inputs, labelLookup, e);
      inputs := inputs + [e];
      labelLookup := labelLookup[e.name := e.guid];
    }

    /** `reset`: no inputs and no labels. */
    method Reset()
      modifies this
      ensures Valid() && inputs == [] && labelLookup == map[]
    {
      inputs := [];
      labelLookup := map[];
    }

    /**
     * `set_label`: equal labels change nothing; a missing old label or a
     * taken new one raises GremlinError; otherwise the same input, in the
     * same place, answers to the new label only.
     */
    method SetLabel(oldLabel: string, newLabel: string) returns (o: Outcome)
      requires Valid()
      modifies this
      ensures Valid()
      ensures oldLabel == newLabel ==> o == Done
      ensures oldLabel != newLabel && oldLabel !in old(labelLookup) ==> o == Raised(GremlinError)
      ensures oldLabel != newLabel && newLabel in old(labelLookup) ==> o == Raised(GremlinError)
      ensures oldLabel != newLabel && oldLabel in old(labelLookup) && newLabel !in old(labelLookup) ==> o == Done
      ensures o.Raised? ==> o.fault == GremlinError
      ensures (o.Raised? || oldLabel == newLabel) ==> inputs == old(inputs) && labelLookup == old(labelLookup)
      ensures o == Done && oldLabel != newLabel ==>
                oldLabel in old(labelLookup) && newLabel !in old(labelLookup)
                && |inputs| == |old(inputs)|
                && labelLookup == old(labelLookup)[newLabel := old(labelLookup)[oldLabel]] - {oldLabel}
                && exists k :: 0 <= k < |inputs| && old(inputs)[k].name == oldLabel
                     && inputs == old(inputs)[k := old(inputs)[k].(name := newLabel)]
    {
      if oldLabel == newLabel {
        return Done;
      }
      if oldLabel !in labelLookup {
        return Raised(GremlinError);
      }
      if newLabel in labelLookup {
        return Raised(GremlinError);
      }
      var guid := labelLookup[oldLabel];
      var i :| 0 <= i < |inputs| && inputs[i].name == oldLabel;
      var k := GuidPosition(inputs, guid);
      assert k == i;
      RegistryRename(inputs, labelLookup, k, newLabel);
      inputs := inputs[k := inputs[k].(name := newLabel)];
      labelLookup := labelLookup[newLabel := guid];
      labelLookup := labelLookup - {oldLabel};
      o := Done;
    }

    /**
     * `delete`: removes the input given by label or guid from both maps.
     * An unknown label raises GremlinError, an unknown guid KeyError.
     */
    method Delete(id: Identifier) returns (o: Outcome)
      requires Valid()
      modifies this
      ensures Valid()
      ensures o == Done <==> old(Get(id)).Ok?
      ensures o.Raised? ==> o.fault in {GremlinError, KeyError} && inputs == old(inputs) && labelLookup == old(labelLookup)
      ensures o == Done ==>
                exists k :: 0 <= k < |old(inputs)|
                  && old(Get(id)) == Ok(old(inputs)[k])
                  && inputs == old(inputs)[..k] + old(inputs)[k + 1..]
                  && labelLookup == old(labelLookup) - {old(inputs)[k].name}
      ensures o == Done ==> forall e :: e in inputs ==> e.guid != old(Get(id)).value.guid
    {
      var g := IdentifierToGuid(id);
      if g.Err? {
        return Raised(g.fault);
      }
      if !HasGuid(inputs, g.value) {
        return Raised(KeyError);
      }
      var k := GuidPosition(inputs, g.value);
      Unregister(k);
      o := Done;
    }

    /** Drops the input at position k from `_inputs` and its label from `_label_lookup`. */
    method Unregister(k: nat)
      requires Valid() && k < |inputs|
      modifies this
      ensures Valid()
      ensures inputs == old(inputs)[..k] + old(inputs)[k + 1..] && labelLookup == old(labelLookup) - {old(inputs)[k].name}
      ensures forall e :: e in inputs ==> e.guid != old(inputs)[k].guid
    {
      var victim := inputs[k];
      RegistryRemove(inputs, labelLookup, k);
      inputs := inputs[..k] + inputs[k + 1..];
      labelLookup := labelLookup - {victim.name};
    }
  }
}
