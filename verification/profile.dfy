// The profile data structures of gremlin/profile.py: the vJoy initial-value
// settings, the action library with its deferred-parse worklist, the
// per-device table of input items, the keyboard input-id codec and the mode
// hierarchy. XML reading and writing are left out; where the library
// parser needs an XML entry, the entry is abstracted as an XmlAction record.
module Profiles {
  import opened PyCore
  import opened GremlinTypes

  // ---------------------------------------------------------------------
  // Settings: initial vJoy axis values

  /** The vJoy-related part of `Settings`. */
  class Settings {
    /** `vjoy_initial_values`: vJoy id -> axis id -> initial value. */
    var vjoyInitialValues: map<int, map<int, real>>

    constructor()
      ensures vjoyInitialValues == map[]
    {
      vjoyInitialValues := map[];
    }

    /** `get_initial_vjoy_axis_value`: the stored value, 0.0 when none was set. */
    function InitialAxisValue(vid: int, aid: int): (r: real)
      reads this
      ensures vid in vjoyInitialValues && aid in vjoyInitialValues[vid] ==> r == vjoyInitialValues[vid][aid]
      ensures !(vid in vjoyInitialValues && aid in vjoyInitialValues[vid]) ==> r == 0.0
    {
      if vid in vjoyInitialValues && aid in vjoyInitialValues[vid] then vjoyInitialValues[vid][aid] else 0.0
    }

    /**
     * `set_initial_vjoy_axis_value`: afterwards the axis reads back the new
     * value and every other (vjoy, axis) pair reads what it read before.
     */
    method SetInitialAxisValue(vid: int, aid: int, value: real)
      modifies this
      ensures vid in vjoyInitialValues && vjoyInitialValues.Keys == old(vjoyInitialValues).Keys + {vid}
      ensures vjoyInitialValues[vid].Keys ==
              (if vid in old(vjoyInitialValues) then old(vjoyInitialValues)[vid].Keys else {}) + {aid}
      ensures InitialAxisValue(vid, aid) == value
      ensures forall v, a :: (v, a) != (vid, aid) ==> InitialAxisValue(v, a) == old(InitialAxisValue(v, a))
    {
      if vid !in vjoyInitialValues {
        vjoyInitialValues := vjoyInitialValues[vid := map[]];
      }
      vjoyInitialValues := vjoyInitialValues[vid := vjoyInitialValues[vid][aid := value]];
    }
  }

  // ---------------------------------------------------------------------
  // Library

  /** An action stored in the library: its id, plugin type tag and the ids of the actions it references. */
  datatype LibraryAction = LibraryAction(id: Uuid, typeKey: string, refs: seq<Uuid>)

  /**
   * A `./library/action` XML element as `from_xml` sees it: whether the
   * "id" and "type" attributes are present, their values, and the ids of
   * the actions it references (`read_action_ids`).
   */
  datatype XmlAction = XmlAction(hasId: bool, hasType: bool, id: Uuid, typeKey: string, refs: seq<Uuid>)

  /** The action `_parse_xml_action` builds from an element. */
  function ToAction(e: XmlAction): LibraryAction
  {
    LibraryAction(e.id, e.typeKey, e.refs)
  }

  /** The element carries both required attributes and a type the plugin manager knows. */
  predicate Acceptable(e: XmlAction, knownTypes: set<string>)
  {
    e.hasId && e.hasType && e.typeKey in knownTypes
  }

  /** `can_parse`: every referenced action is already in the library. */
  predicate CanParse(e: XmlAction, keys: set<Uuid>)
  {
    forall r :: r in e.refs ==> r in keys
  }

  /** The ids of a list of elements. */
  function IdsOf(s: seq<XmlAction>): (r: set<Uuid>)
    ensures forall e :: e in s ==> e.id in r
  {
    if s == [] then {} else IdsOf(s[..|s| - 1]) + {s[|s| - 1].id}
  }

  lemma IdsOfAppend(s: seq<XmlAction>, e: XmlAction)
    ensures IdsOf(s + [e]) == IdsOf(s) + {e.id}
  {
    assert (s + [e])[..|s|] == s;
  }

  lemma {:induction false} IdsOfMember(s: seq<XmlAction>, id: Uuid)
    ensures id in IdsOf(s) <==> exists e :: e in s && e.id == id
  {
    if s != [] {
      IdsOfMember(s[..|s| - 1], id);
      assert s == s[..|s| - 1] + [s[|s| - 1]];
      forall e | e in s[..|s| - 1] ensures e in s { }
    }
  }

  /**
   * What parsing the elements of `parsed`, in that order, does to a
   * library that held `before`: each element was parsable when its turn
   * came, its id was new, and it is stored under that id; nothing that was
   * there before changes.
   */
  ghost predicate ParsedFrom(before: map<Uuid, LibraryAction>, actions: map<Uuid, LibraryAction>, parsed: seq<XmlAction>)
  {
    Stored(before, actions, parsed) && InParseOrder(before.Keys, parsed)
  }

  ghost predicate Stored(before: map<Uuid, LibraryAction>, actions: map<Uuid, LibraryAction>, parsed: seq<XmlAction>)
  {
    && actions.Keys == before.Keys + IdsOf(parsed)
    && (forall k :: k in before ==> actions[k] == before[k])
    && (forall j :: 0 <= j < |parsed| ==> parsed[j].id !in before && actions[parsed[j].id] == ToAction(parsed[j]))
  }

  ghost predicate InParseOrder(keys: set<Uuid>, parsed: seq<XmlAction>)
  {
    && (forall i, j :: 0 <= i < j < |parsed| ==> parsed[i].id != parsed[j].id)
    && (forall j :: 0 <= j < |parsed| ==> CanParse(parsed[j], keys + IdsOf(parsed[..j])))
  }

  lemma StoredStep(before: map<Uuid, LibraryAction>, actions: map<Uuid, LibraryAction>, parsed: seq<XmlAction>, e: XmlAction)
    requires Stored(before, actions, parsed) && e.id !in actions
    ensures Stored(before, actions[e.id := ToAction(e)], parsed + [e])
  {
    IdsOfAppend(parsed, e);
    var after := actions[e.id := ToAction(e)];
    forall j | 0 <= j < |parsed| + 1
      ensures (parsed + [e])[j].id !in before && after[(parsed + [e])[j].id] == ToAction((parsed + [e])[j])
    {
      if j < |parsed| {
        assert parsed[j].id in actions;
      }
    }
  }

  lemma InParseOrderStep(keys: set<Uuid>, parsed: seq<XmlAction>, e: XmlAction)
    requires InParseOrder(keys, parsed) && e.id !in IdsOf(parsed) && CanParse(e, keys + IdsOf(parsed))
    ensures InParseOrder(keys, parsed + [e])
  {
    var p := parsed + [e];
    forall i, j | 0 <= i < j < |p| ensures p[i].id != p[j].id {
      if j == |parsed| {
        assert parsed[i] in parsed;
      }
    }
    forall j | 0 <= j < |p| ensures CanParse(p[j], keys + IdsOf(p[..j])) {
      if j < |parsed| {
        assert p[..j] == parsed[..j];
      } else {
        assert p[..j] == parsed;
      }
    }
  }

  lemma ParsedStep(before: map<Uuid, LibraryAction>, actions: map<Uuid, LibraryAction>, parsed: seq<XmlAction>, e: XmlAction)
    requires ParsedFrom(before, actions, parsed)
    requires e.id !in actions && CanParse(e, actions.Keys)
    ensures ParsedFrom(before, actions[e.id := ToAction(e)], parsed + [e])
  {
    StoredStep(before, actions, parsed, e);
    InParseOrderStep(before.Keys, parsed, e);
  }

  lemma ParsedKeys(before: map<Uuid, LibraryAction>, actions: map<Uuid, LibraryAction>, parsed: seq<XmlAction>, e: XmlAction)
    requires ParsedFrom(before, actions, parsed) && e in parsed
    ensures e.id in actions && actions[e.id] == ToAction(e) && CanParse(e, actions.Keys)
  {
    var j :| 0 <= j < |parsed| && parsed[j] == e;
    IdsOfPrefix(parsed, j);
    CanParseMonotone(e, before.Keys + IdsOf(parsed[..j]), actions.Keys);
  }

  lemma IdsOfPrefix(s: seq<XmlAction>, j: nat)
    requires j <= |s|
    ensures IdsOf(s[..j]) <= IdsOf(s)
  {
    forall id | id in IdsOf(s[..j]) ensures id in IdsOf(s) {
      IdsOfMember(s[..j], id);
      IdsOfMember(s, id);
      var x :| x in s[..j] && x.id == id;
      assert x in s;
    }
  }

  lemma CanParseMonotone(e: XmlAction, k1: set<Uuid>, k2: set<Uuid>)
    requires CanParse(e, k1) && k1 <= k2
    ensures CanParse(e, k2)
  {
  }

  /** No two elements share an id, and no element's id is among `keys`. */
  ghost predicate FreshIds(keys: set<Uuid>, s: seq<XmlAction>)
  {
    && (forall i :: 0 <= i < |s| ==> s[i].id !in keys)
    && (forall i, j :: 0 <= i < j < |s| ==> s[i].id != s[j].id)
  }

  /**
   * While the first loop is at element i: the queued ids are fresh, no element from i on
   * is stored yet, and none of them shares an id with a queued one.
   */
  ghost predicate FreshBeyond(keys: set<Uuid>, queue: seq<XmlAction>, entries: seq<XmlAction>, i: nat)
  {
    && FreshIds(keys, queue)
    && (forall j :: i <= j < |entries| ==> entries[j].id !in keys)
    && (forall k, j :: 0 <= k < |queue| && i <= j < |entries| ==> queue[k].id != entries[j].id)
  }

  /** Some arrangement of the elements can be parsed one after another on top of `keys`. */
  ghost predicate Resolvable(keys: set<Uuid>, entries: seq<XmlAction>)
  {
    exists order :: multiset(order) == multiset(entries) && InParseOrder(keys, order)
  }

  /** Elements whose references all point to earlier elements or to `keys` are resolvable as they stand. */
  lemma DocumentOrderResolvable(keys: set<Uuid>, entries: seq<XmlAction>)
    requires InParseOrder(keys, entries)
    ensures Resolvable(keys, entries)
  {
    assert multiset(entries) == multiset(entries) && InParseOrder(keys, entries);
  }

  /** Parsing the front element leaves the rest fresh with respect to the grown key set. */
  lemma FreshIdsDrop(keys: set<Uuid>, q: seq<XmlAction>)
    requires FreshIds(keys, q) && |q| > 0
    ensures FreshIds(keys + {q[0].id}, q[1..])
  {
    forall i | 0 <= i < |q| - 1 ensures q[1..][i].id !in keys + {q[0].id} {
      assert q[1..][i] == q[i + 1];
    }
  }

  /** Moving the front element to the back keeps the elements fresh. */
  lemma FreshIdsRotate(keys: set<Uuid>, q: seq<XmlAction>)
    requires FreshIds(keys, q) && |q| > 0
    ensures FreshIds(keys, q[1..] + [q[0]])
  {
    var r := q[1..] + [q[0]];
    forall i | 0 <= i < |r| ensures r[i].id !in keys {
      if i < |r| - 1 {
        assert r[i] == q[i + 1];
      } else {
        assert r[i] == q[0];
      }
    }
    forall i, j | 0 <= i < j < |r| ensures r[i].id != r[j].id {
      assert r[i] == q[i + 1];
      if j < |r| - 1 {
        assert r[j] == q[j + 1];
      } else {
        assert r[j] == q[0];
      }
    }
  }

  /**
   * The first element of `order` still waiting in `queue`: every element
   * before it has been parsed.
   */
  lemma FirstWaiting(parsed: seq<XmlAction>, queue: seq<XmlAction>, entries: seq<XmlAction>, order: seq<XmlAction>)
    returns (k: nat)
    requires multiset(parsed) + multiset(queue) == multiset(entries)
    requires multiset(order) == multiset(entries)
    requires |queue| > 0
    ensures k < |order| && order[k] in queue
    ensures forall j :: 0 <= j < k ==> order[j] in parsed
  {
    k := 0;
    while k < |order| && order[k] !in queue
      invariant 0 <= k <= |order|
      invariant forall j :: 0 <= j < k ==> order[j] !in queue && order[j] in parsed
    {
      assert order[k] in multiset(parsed) + multiset(queue);
      k := k + 1;
    }
    assert queue[0] in multiset(order);
  }

  /** The ids of elements that have all been parsed are among the parsed ids. */
  lemma ParsedPrefixIds(order: seq<XmlAction>, k: nat, parsed: seq<XmlAction>)
    requires k <= |order|
    requires forall j :: 0 <= j < k ==> order[j] in parsed
    ensures IdsOf(order[..k]) <= IdsOf(parsed)
  {
    forall id | id in IdsOf(order[..k]) ensures id in IdsOf(parsed) {
      IdsOfMember(order[..k], id);
      var x :| x in order[..k] && x.id == id;
      assert x in parsed;
    }
  }

  /**
   * While elements wait and the elements have a parse order, some waiting
   * element can be parsed: the first of that order not parsed yet, since
   * everything before it in the order is already stored.
   */
  lemma ParseOrderProgress(keys: set<Uuid>, stored: set<Uuid>, parsed: seq<XmlAction>, queue: seq<XmlAction>,
                           entries: seq<XmlAction>, order: seq<XmlAction>)
    requires stored == keys + IdsOf(parsed)
    requires multiset(parsed) + multiset(queue) == multiset(entries)
    requires multiset(order) == multiset(entries) && InParseOrder(keys, order)
    requires |queue| > 0
    ensures exists j :: 0 <= j < |queue| && CanParse(queue[j], stored)
  {
    var k := FirstWaiting(parsed, queue, entries, order);
    ParsedPrefixIds(order, k, parsed);
    CanParseMonotone(order[k], keys + IdsOf(order[..k]), stored);
    var j :| 0 <= j < |queue| && queue[j] == order[k];
  }

  /** When every waiting element is blocked, the elements have no parse order. */
  lemma BlockedUnresolvable(before: map<Uuid, LibraryAction>, actions: map<Uuid, LibraryAction>,
                            parsed: seq<XmlAction>, queue: seq<XmlAction>, entries: seq<XmlAction>)
    requires ParsedFrom(before, actions, parsed)
    requires multiset(parsed) + multiset(queue) == multiset(entries)
    requires |queue| > 0 && forall j :: 0 <= j < |queue| ==> !CanParse(queue[j], actions.Keys)
    ensures !Resolvable(before.Keys, entries)
  {
    forall order | multiset(order) == multiset(entries) ensures !InParseOrder(before.Keys, order) {
      if InParseOrder(before.Keys, order) {
        ParseOrderProgress(before.Keys, actions.Keys, parsed, queue, entries, order);
      }
    }
  }

  /** The action library: actions keyed by id. */
  class Library {
    /** `_actions`. */
    var actions: map<Uuid, LibraryAction>

    constructor()
      ensures actions == map[]
    {
      actions := map[];
    }

    /** `add_action`: stores the action under its id, replacing any action already there. */
    method AddAction(a: LibraryAction)
      modifies this
      ensures actions == old(actions)[a.id := a]
      ensures HasAction(a.id) && GetAction(a.id) == Ok(a)
    {
      actions := actions[a.id := a];
    }

    /** `delete_action`: removes the key if present; an absent key changes nothing. */
    method DeleteAction(key: Uuid)
      modifies this
      ensures actions == old(actions) - {key}
      ensures key !in old(actions) ==> actions == old(actions)
      ensures !HasAction(key)
    {
      if key in actions {
        actions := actions - {key};
      }
    }

    /** `get_action`: the stored action, GremlinError for an unknown key. */
    function GetAction(key: Uuid): (r: Result<LibraryAction>)
      reads this
      ensures r.Ok? <==> key in actions
      ensures r.Ok? ==> r.value == actions[key] && r.value in actions.Values
      ensures r.Err? ==> r.fault == GremlinError
    {
      if key !in actions then Err(GremlinError) else Ok(actions[key])
    }

    /** `has_action`: exactly the keys `get_action` finds. */
    predicate HasAction(key: Uuid)
      reads this
      ensures HasAction(key) <==> GetAction(key).Ok?
    {
      key in actions
    }

    /**
     * `remove_unused`, as written. The "is it still used" test asks whether
     * the action is an element of the (actions, selectors) pair that
     * `get_actions` returns; an action is never equal to a list, so the test
     * never succeeds. With `recursive` set, the worklist is extended with
     * that pair's two lists and its second element, a list, is then asked
     * for `get_actions`, which raises AttributeError before anything is
     * deleted. Without it, the action's id is deleted, and an id that is
     * not there raises KeyError.
     */
    method RemoveUnused(a: LibraryAction, recursive: bool) returns (o: Outcome)
      modifies this
      ensures recursive ==> o == Raised(AttributeError) && actions == old(actions)
      ensures !recursive && a.id in old(actions) ==> o == Done && actions == old(actions) - {a.id}
      ensures !recursive && a.id !in old(actions) ==> o == Raised(KeyError) && actions == old(actions)
    {
      if recursive {
        return Raised(AttributeError);
      }
      if a.id !in actions {
        return Raised(KeyError);
      }
      actions := actions - {a.id};
      o := Done;
    }

    /** `_parse_xml_action`: a duplicate id raises ProfileError. */
    method ParseXmlAction(e: XmlAction) returns (o: Outcome)
      modifies this
      ensures e.id in old(actions) ==> o == Raised(ProfileError) && actions == old(actions)
      ensures e.id !in old(actions) ==> o == Done && actions == old(actions)[e.id := ToAction(e)]
    {
      if e.id in actions {
        return Raised(ProfileError);
      }
      actions := actions[e.id := ToAction(e)];
      o := Done;
    }

    /**
     * `from_xml`. A first pass checks each element in turn (ProfileError
     * for a missing attribute or an unknown type), parses it at once when
     * every action it references is present and queues it otherwise. The
     * queue is then worked off first-in first-out, an element that still
     * cannot be parsed going to the back. The source's loop never ends once
     * every queued element is blocked; the model stops there and reports
     * NonTermination. `knownTypes` stands for the plugin manager's tag map.
     * `parsed` is the order in which elements were parsed.
     */
    method FromXml(entries: seq<XmlAction>, knownTypes: set<string>) returns (o: Outcome, ghost parsed: seq<XmlAction>)
      modifies this
      ensures o.Raised? ==> o.fault in {ProfileError, NonTermination}
      ensures (exists i :: 0 <= i < |entries| && !Acceptable(entries[i], knownTypes)) ==> o == Raised(ProfileError)
      ensures o == Done ==> multiset(parsed) == multiset(entries) && ParsedFrom(old(actions), actions, parsed)
      ensures o == Done ==> forall e :: e in entries ==> e.id in actions && actions[e.id] == ToAction(e) && CanParse(e, actions.Keys)
      ensures o == Raised(NonTermination) ==> exists e, r :: e in entries && r in e.refs && r !in actions
      ensures (exists e, r :: e in entries && r in e.refs && r !in old(actions) && r !in IdsOf(entries)) ==> o.Raised?
      ensures (forall i :: 0 <= i < |entries| ==> Acceptable(entries[i], knownTypes))
              && FreshIds(old(actions).Keys, entries) && Resolvable(old(actions).Keys, entries)
              ==> o == Done
    {
      ghost var before := actions;
      var queue;
      o, parsed, queue := FirstPass(entries, knownTypes);
      if o.Raised? {
        return;
      }
      o, parsed := Drain(before, entries, queue, parsed);
      if o == Done {
        ParsedAll(before, actions, parsed, entries);
      }
    }

    /** Parses an element whose references are all present, recording it as the next one parsed. */
    method ParseReady(ghost before: map<Uuid, LibraryAction>, e: XmlAction, ghost parsed: seq<XmlAction>)
      returns (o: Outcome, ghost parsed': seq<XmlAction>)
      requires ParsedFrom(before, actions, parsed) && CanParse(e, actions.Keys)
      modifies this
      ensures o.Raised? ==> o == Raised(ProfileError)
      ensures e.id !in old(actions) ==> o == Done
      ensures o == Done ==> actions == old(actions)[e.id := ToAction(e)]
      ensures o == Done ==> parsed' == parsed + [e] && ParsedFrom(before, actions, parsed')
    {
      ParsedStepIfNew(before, actions, parsed, e);
      o := ParseXmlAction(e);
      parsed' := parsed + [e];
    }

    /**
     * One element of the first loop: a missing attribute or an unknown type
     * raises ProfileError; otherwise the element is parsed at once when its
     * references are present and queued when they are not.
     */
    method Admit(ghost before: map<Uuid, LibraryAction>, entries: seq<XmlAction>, i: nat, knownTypes: set<string>,
                 ghost parsed: seq<XmlAction>, queue: seq<XmlAction>)
      returns (o: Outcome, ghost parsed': seq<XmlAction>, queue': seq<XmlAction>)
      requires i < |entries|
      requires ParsedFrom(before, actions, parsed)
      requires multiset(parsed) + multiset(queue) == multiset(entries[..i])
      modifies this
      ensures o.Raised? ==> o == Raised(ProfileError)
      ensures !Acceptable(entries[i], knownTypes) ==> o.Raised?
      ensures o == Done ==> Acceptable(entries[i], knownTypes)
      ensures o == Done ==> multiset(parsed') + multiset(queue') == multiset(entries[..i + 1])
      ensures o == Done ==> ParsedFrom(before, actions, parsed')
      ensures Acceptable(entries[i], knownTypes) && entries[i].id !in old(actions) ==> o == Done
      ensures o == Done ==> (actions == old(actions)[entries[i].id := ToAction(entries[i])] && queue' == queue)
                            || (actions == old(actions) && queue' == queue + [entries[i]])
    {
      var e := entries[i];
      if !(e.hasId && e.hasType) || e.typeKey !in knownTypes {
        return Raised(ProfileError), parsed, queue;
      }
      assert entries[..i + 1] == entries[..i] + [e];
      o, parsed', queue' := ParseOrQueue(before, e, parsed, queue);
    }

    /** An accepted element is parsed at once when its references are present, queued otherwise. */
    method ParseOrQueue(ghost before: map<Uuid, LibraryAction>, e: XmlAction, ghost parsed: seq<XmlAction>, queue: seq<XmlAction>)
      returns (o: Outcome, ghost parsed': seq<XmlAction>, queue': seq<XmlAction>)
      requires ParsedFrom(before, actions, parsed)
      modifies this
      ensures o.Raised? ==> o == Raised(ProfileError)
      ensures o == Done ==> multiset(parsed') + multiset(queue') == multiset(parsed) + multiset(queue) + multiset{e}
      ensures o == Done ==> ParsedFrom(before, actions, parsed')
      ensures e.id !in old(actions) ==> o == Done
      ensures o == Done ==> (actions == old(actions)[e.id := ToAction(e)] && queue' == queue)
                            || (actions == old(actions) && queue' == queue + [e])
    {
      if CanParse(e, actions.Keys) {
        o, parsed' := ParseReady(before, e, parsed);
        queue' := queue;
      } else {
        o, parsed', queue' := Done, parsed, queue + [e];
      }
    }

    /** The first loop of `from_xml`: check every element, parse the ready ones, queue the rest. */
    method FirstPass(entries: seq<XmlAction>, knownTypes: set<string>)
      returns (o: Outcome, ghost parsed: seq<XmlAction>, queue: seq<XmlAction>)
      modifies this
      ensures o.Raised? ==> o.fault == ProfileError
      ensures (exists i :: 0 <= i < |entries| && !Acceptable(entries[i], knownTypes)) ==> o.Raised?
      ensures o == Done ==> multiset(parsed) + multiset(queue) == multiset(entries)
      ensures o == Done ==> ParsedFrom(old(actions), actions, parsed)
      ensures (forall i :: 0 <= i < |entries| ==> Acceptable(entries[i], knownTypes)) && FreshIds(old(actions).Keys, entries)
              ==> o == Done && FreshIds(actions.Keys, queue)
    {
      ghost var before := actions;
      ghost var newIds := FreshIds(before.Keys, entries);
      parsed := [];
      queue := [];
      var i := 0;
      while i < |entries|
        invariant 0 <= i <= |entries|
        invariant forall j :: 0 <= j < i ==> Acceptable(entries[j], knownTypes)
        invariant multiset(parsed) + multiset(queue) == multiset(entries[..i])
        invariant ParsedFrom(before, actions, parsed)
        invariant newIds ==> FreshBeyond(actions.Keys, queue, entries, i)
      {
        ghost var keys0, queue0 := actions.Keys, queue;
        o, parsed, queue := Admit(before, entries, i, knownTypes, parsed, queue);
        if o.Raised? {
          return;
        }
        if newIds {
          FreshAfterAdmit(before.Keys, keys0, actions.Keys, entries, i, queue0, queue);
        }
        i := i + 1;
      }
      assert entries[..i] == entries;
      assert newIds ==> FreshIds(actions.Keys, queue);
      o := Done;
    }

    /**
     * The second loop of `from_xml`. `stalled` counts the elements at the
     * back of the queue found blocked since the library last grew; once it
     * covers the whole queue nothing can change any more.
     */
    method Drain(ghost before: map<Uuid, LibraryAction>, ghost entries: seq<XmlAction>, queue0: seq<XmlAction>, ghost parsed0: seq<XmlAction>)
      returns (o: Outcome, ghost parsed: seq<XmlAction>)
      requires ParsedFrom(before, actions, parsed0)
      requires multiset(parsed0) + multiset(queue0) == multiset(entries)
      modifies this
      ensures o.Raised? ==> o.fault in {ProfileError, NonTermination}
      ensures o == Done ==> multiset(parsed) == multiset(entries) && ParsedFrom(before, actions, parsed)
      ensures o == Raised(NonTermination) ==> exists e, r :: e in entries && r in e.refs && r !in actions
      ensures FreshIds(old(actions).Keys, queue0) && Resolvable(before.Keys, entries) ==> o == Done
    {
      parsed := parsed0;
      var queue := queue0;
      var stalled := 0;
      ghost var newIds := FreshIds(actions.Keys, queue0);
      while |queue| > 0
        invariant 0 <= stalled <= |queue|
        invariant multiset(parsed) + multiset(queue) == multiset(entries)
        invariant ParsedFrom(before, actions, parsed)
        invariant forall j :: |queue| - stalled <= j < |queue| ==> !CanParse(queue[j], actions.Keys)
        invariant newIds ==> FreshIds(actions.Keys, queue)
        decreases |queue|, |queue| - stalled
      {
        if stalled == |queue| {
          assert queue[0] in multiset(entries);
          assert !CanParse(queue[0], actions.Keys);
          BlockedUnresolvable(before, actions, parsed, queue, entries);
          return Raised(NonTermination), parsed;
        }
        ghost var actions0, queue1 := actions, queue;
        o, parsed, queue, stalled := DrainStep(before, entries, queue, stalled, parsed);
        if newIds && o == Done {
          FreshAfterTurn(actions0, actions, queue1, queue);
        }
        if o.Raised? {
          return;
        }
      }
      o := Done;
    }

    /**
     * One turn of the second loop: the front element is parsed when it can
     * be, and otherwise goes to the back of the queue, one more stalled.
     */
    method DrainStep(ghost before: map<Uuid, LibraryAction>, ghost entries: seq<XmlAction>, queue: seq<XmlAction>, stalled: nat, ghost parsed: seq<XmlAction>)
      returns (o: Outcome, ghost parsed': seq<XmlAction>, queue': seq<XmlAction>, stalled': nat)
      requires stalled < |queue|
      requires multiset(parsed) + multiset(queue) == multiset(entries)
      requires ParsedFrom(before, actions, parsed)
      requires forall j :: |queue| - stalled <= j < |queue| ==> !CanParse(queue[j], actions.Keys)
      modifies this
      ensures o.Raised? ==> o == Raised(ProfileError)
      ensures o == Done ==> stalled' <= |queue'| && multiset(parsed') + multiset(queue') == multiset(entries)
      ensures o == Done ==> ParsedFrom(before, actions, parsed')
      ensures o == Done ==> forall j :: |queue'| - stalled' <= j < |queue'| ==> !CanParse(queue'[j], actions.Keys)
      ensures o == Done ==> |queue'| < |queue| || (|queue'| == |queue| && |queue'| - stalled' < |queue| - stalled)
      ensures queue[0].id !in old(actions) ==> o == Done
      ensures o == Done && stalled' == 0 ==> queue' == queue[1..] && actions == old(actions)[queue[0].id := ToAction(queue[0])]
      ensures stalled' != 0 ==> queue' == queue[1..] + [queue[0]] && actions == old(actions)
    {
      var e := queue[0];
      var rest := queue[1..];
      assert queue == [e] + rest;
      if CanParse(e, actions.Keys) {
        o, parsed' := ParseReady(before, e, parsed);
        queue', stalled' := rest, 0;
        assert multiset(queue) == multiset(queue') + multiset{e};
      } else {
        RotateStalled(queue, stalled, actions.Keys);
        o, parsed', queue', stalled' := Done, parsed, rest + [e], stalled + 1;
        assert multiset(queue) == multiset(queue');
      }
    }
  }

  /** A turn of the second loop keeps the waiting elements fresh. */
  lemma FreshAfterTurn(before: map<Uuid, LibraryAction>, after: map<Uuid, LibraryAction>, queue: seq<XmlAction>, queue': seq<XmlAction>)
    requires FreshIds(before.Keys, queue) && |queue| > 0
    requires (queue' == queue[1..] && after == before[queue[0].id := ToAction(queue[0])])
             || (queue' == queue[1..] + [queue[0]] && after == before)
    ensures FreshIds(after.Keys, queue')
  {
    if queue' == queue[1..] && after == before[queue[0].id := ToAction(queue[0])] {
      assert after.Keys == before.Keys + {queue[0].id};
      FreshIdsDrop(before.Keys, queue);
    } else {
      FreshIdsRotate(before.Keys, queue);
    }
  }

  /**
   * One element of the first loop keeps the pending elements fresh: the
   * element is either stored or queued, and its id differs from every later
   * one and from every queued one.
   */
  lemma FreshAfterAdmit(before: set<Uuid>, keys0: set<Uuid>, keys1: set<Uuid>, entries: seq<XmlAction>, i: nat,
                        queue0: seq<XmlAction>, queue: seq<XmlAction>)
    requires i < |entries| && FreshIds(before, entries)
    requires FreshBeyond(keys0, queue0, entries, i)
    requires (keys1 == keys0 + {entries[i].id} && queue == queue0) || (keys1 == keys0 && queue == queue0 + [entries[i]])
    ensures FreshBeyond(keys1, queue, entries, i + 1)
  {
  }

  /** Once every element is parsed, each is stored under its id and all references resolve. */
  lemma ParsedAll(before: map<Uuid, LibraryAction>, actions: map<Uuid, LibraryAction>, parsed: seq<XmlAction>, entries: seq<XmlAction>)
    requires ParsedFrom(before, actions, parsed) && multiset(parsed) == multiset(entries)
    ensures forall e :: e in entries ==> e.id in actions && actions[e.id] == ToAction(e) && CanParse(e, actions.Keys)
    ensures actions.Keys == before.Keys + IdsOf(entries)
  {
    forall e | e in entries
      ensures e.id in actions && actions[e.id] == ToAction(e) && CanParse(e, actions.Keys)
    {
      assert e in multiset(parsed);
      ParsedKeys(before, actions, parsed, e);
    }
    SameIds(parsed, entries);
  }

  /** Moving a blocked element from the front to the back keeps the blocked suffix blocked. */
  lemma RotateStalled(queue: seq<XmlAction>, stalled: nat, keys: set<Uuid>)
    requires 0 <= stalled < |queue|
    requires forall j :: |queue| - stalled <= j < |queue| ==> !CanParse(queue[j], keys)
    requires !CanParse(queue[0], keys)
    ensures var q := queue[1..] + [queue[0]];
            forall j :: |q| - (stalled + 1) <= j < |q| ==> !CanParse(q[j], keys)
  {
    var q := queue[1..] + [queue[0]];
    forall j | |q| - (stalled + 1) <= j < |q| ensures !CanParse(q[j], keys) {
      if j < |q| - 1 {
        assert q[j] == queue[j + 1];
      }
    }
  }

  /** Two lists with the same elements have the same ids. */
  lemma SameIds(a: seq<XmlAction>, b: seq<XmlAction>)
    requires multiset(a) == multiset(b)
    ensures IdsOf(a) == IdsOf(b)
  {
    forall id ensures id in IdsOf(a) <==> id in IdsOf(b) {
      IdsOfMember(a, id);
      IdsOfMember(b, id);
      forall x ensures x in a <==> x in b {
        assert x in multiset(a) <==> x in multiset(b);
      }
    }
  }

  lemma ParsedStepIfNew(before: map<Uuid, LibraryAction>, actions: map<Uuid, LibraryAction>, parsed: seq<XmlAction>, e: XmlAction)
    requires ParsedFrom(before, actions, parsed) && CanParse(e, actions.Keys)
    ensures e.id !in actions ==> ParsedFrom(before, actions[e.id := ToAction(e)], parsed + [e])
  {
    if e.id !in actions {
      ParsedStep(before, actions, parsed, e);
    }
  }

  // ---------------------------------------------------------------------
  // Input items

  /** An input id: a button/axis/hat number, an intermediate-output guid, or a keyboard (scan code, extended) pair. */
  datatype InputId = IntId(n: int) | UuidId(u: Uuid) | TupleId(scan: int, ext: int)

  /**
   * An `InputItem`, by value: which input of which device in which mode it
   * configures, and how many action sequences (`action_sequences`) it holds.
   */
  datatype InputItem = InputItem(device: Uuid, inputType: InputType, inputId: InputId, mode: string, sequenceCount: nat)

  /** The item configures that input in that mode. */
  predicate Matches(item: InputItem, t: InputType, id: InputId, mode: string)
  {
    item.inputType == t && item.inputId == id && item.mode == mode
  }

  /** Position of the first item matching (type, id, mode), as a `for ... return` scan finds it. */
  function FirstMatch(items: seq<InputItem>, t: InputType, id: InputId, mode: string): (r: Option<nat>)
    ensures r.Some? ==> r.value < |items| && Matches(items[r.value], t, id, mode)
    ensures r.Some? ==> forall j :: 0 <= j < r.value ==> !Matches(items[j], t, id, mode)
    ensures r.None? <==> forall j :: 0 <= j < |items| ==> !Matches(items[j], t, id, mode)
  {
    if items == [] then None
    else if Matches(items[0], t, id, mode) then Some(0)
    else match FirstMatch(items[1..], t, id, mode)
      case None => None
      case Some(k) => Some(k + 1)
  }

  /** A matching item with no match before it is the first match. */
  lemma FirstMatchIs(items: seq<InputItem>, t: InputType, id: InputId, mode: string, i: nat)
    requires i < |items| && Matches(items[i], t, id, mode)
    requires forall j :: 0 <= j < i ==> !Matches(items[j], t, id, mode)
    ensures FirstMatch(items, t, id, mode) == Some(i)
  {
    var r := FirstMatch(items, t, id, mode);
    assert r.Some?;
    assert r.value >= i;
  }

  /** Appending an item leaves an earlier first match where it was. */
  lemma {:induction false} FirstMatchAppend(items: seq<InputItem>, x: InputItem, t: InputType, id: InputId, mode: string)
    requires FirstMatch(items, t, id, mode).Some?
    ensures FirstMatch(items + [x], t, id, mode) == FirstMatch(items, t, id, mode)
  {
    if !Matches(items[0], t, id, mode) {
      var tail := items[1..];
      assert (items + [x])[0] == items[0];
      assert (items + [x])[1..] == tail + [x];
      FirstMatchAppend(tail, x, t, id, mode);
    }
  }

  /** With no match before it, an appended matching item is the first match. */
  lemma {:induction false} FirstMatchAppendNew(items: seq<InputItem>, x: InputItem, t: InputType, id: InputId, mode: string)
    requires FirstMatch(items, t, id, mode).None? && Matches(x, t, id, mode)
    ensures FirstMatch(items + [x], t, id, mode) == Some(|items|)
  {
    if items != [] {
      var tail := items[1..];
      assert (items + [x])[0] == items[0];
      assert (items + [x])[1..] == tail + [x];
      FirstMatchAppendNew(tail, x, t, id, mode);
    }
  }

  /** The item `get_input_item` creates when none matches. */
  function NewItem(device: Uuid, t: InputType, id: InputId, mode: string): InputItem
  {
    InputItem(device, t, id, mode, 0)
  }

  /** `get_input_item` with `create_if_missing` a second time finds the item the first call created. */
  lemma CreatedItemIsFound(items: seq<InputItem>, device: Uuid, t: InputType, id: InputId, mode: string)
    requires FirstMatch(items, t, id, mode).None?
    ensures var after := items + [NewItem(device, t, id, mode)];
            FirstMatch(after, t, id, mode) == Some(|items|) && after[|items|] == NewItem(device, t, id, mode)
  {
    FirstMatchAppendNew(items, NewItem(device, t, id, mode), t, id, mode);
  }

  /** The input-item table of a `Profile`. */
  class Profile {
    /** `inputs`: device guid -> its input items, in insertion order. */
    var inputs: map<Uuid, seq<InputItem>>

    constructor()
      ensures inputs == map[]
    {
      inputs := map[];
    }

    /** The `for item in ...: if <match>: return` scan shared by the two lookups below. */
    static method FindItem(items: seq<InputItem>, t: InputType, id: InputId, mode: string) returns (r: Option<nat>)
      ensures r == FirstMatch(items, t, id, mode)
    {
      var i := 0;
      while i < |items|
        invariant 0 <= i <= |items|
        invariant forall j :: 0 <= j < i ==> !Matches(items[j], t, id, mode)
      {
        if Matches(items[i], t, id, mode) {
          FirstMatchIs(items, t, id, mode, i);
          return Some(i);
        }
        i := i + 1;
      }
      return None;
    }

    /** `get_input_count`: the sequence count of the matching item; 0 without a device or an item. */
    method GetInputCount(device: Uuid, t: InputType, id: InputId, mode: string) returns (n: nat)
      ensures device !in inputs ==> n == 0
      ensures device in inputs && FirstMatch(inputs[device], t, id, mode).None? ==> n == 0
      ensures device in inputs && FirstMatch(inputs[device], t, id, mode).Some? ==>
                n == inputs[device][FirstMatch(inputs[device], t, id, mode).value].sequenceCount
    {
      if device !in inputs {
        return 0;
      }
      var k := FindItem(inputs[device], t, id, mode);
      n := if k.Some? then inputs[device][k.value].sequenceCount else 0;
    }

    /**
     * `get_input_item`. A keyboard (tuple) id fails the argument type check
     * and raises ProfileError. Otherwise the first matching item is
     * returned; when there is none, `create` appends a new one with no
     * action sequences (creating the device's list if needed) and returns
     * it, and without `create` the answer is None and nothing changes.
     */
    method GetInputItem(device: Uuid, t: InputType, id: InputId, mode: string, create: bool)
      returns (r: Result<Option<InputItem>>)
      modifies this
      ensures id.TupleId? ==> r == Err(ProfileError) && inputs == old(inputs)
      ensures !id.TupleId? && device !in old(inputs) && !create ==> r == Ok(None) && inputs == old(inputs)
      ensures !id.TupleId? && device in old(inputs) && FirstMatch(old(inputs)[device], t, id, mode).Some? ==>
                r == Ok(Some(old(inputs)[device][FirstMatch(old(inputs)[device], t, id, mode).value])) &&
                inputs == old(inputs)
      ensures !id.TupleId? && device in old(inputs) && FirstMatch(old(inputs)[device], t, id, mode).None? && !create ==>
                r == Ok(None) && inputs == old(inputs)
      ensures !id.TupleId? && create && (device !in old(inputs) || FirstMatch(old(inputs)[device], t, id, mode).None?) ==>
                var items := if device in old(inputs) then old(inputs)[device] else [];
                r == Ok(Some(NewItem(device, t, id, mode))) &&
                inputs == old(inputs)[device := items + [NewItem(device, t, id, mode)]]
    {
      if id.TupleId? {
        return Err(ProfileError);
      }
      if device !in inputs {
        if create {
          inputs := inputs[device := []];
        } else {
          return Ok(None);
        }
      }
      var k := FindItem(inputs[device], t, id, mode);
      if k.Some? {
        return Ok(Some(inputs[device][k.value]));
      }
      if create {
        var item := NewItem(device, t, id, mode);
        inputs := inputs[device := inputs[device] + [item]];
        return Ok(Some(item));
      }
      return Ok(None);
    }
  }

  // ---------------------------------------------------------------------
  // Keyboard input ids

  /** 2 to the power k. */
  function Pow2(k: nat): (r: nat)
    ensures r >= 1
  {
    if k == 0 then 1 else 2 * Pow2(k - 1)
  }

  /** Python's `a | b` on non-negative integers, bit by bit from the lowest. */
  function BitOr(a: nat, b: nat): nat
    decreases a + b
  {
    if a == 0 then b
    else if b == 0 then a
    else 2 * BitOr(a / 2, b / 2) + (if a % 2 == 1 || b % 2 == 1 then 1 else 0)
  }

  /** Or-ing a value below 2^k into a multiple of 2^k adds it. */
  lemma {:induction false} BitOrLowBits(x: nat, y: nat, k: nat)
    requires y < Pow2(k)
    ensures BitOr(x * Pow2(k), y) == x * Pow2(k) + y
  {
    if k == 0 {
      assert y == 0;
    } else if x == 0 || y == 0 {
    } else {
      var a := x * Pow2(k);
      assert a == 2 * (x * Pow2(k - 1));
      assert a / 2 == x * Pow2(k - 1) && a % 2 == 0;
      assert y / 2 < Pow2(k - 1);
      BitOrLowBits(x, y / 2, k - 1);
      assert BitOr(a, y) == 2 * BitOr(a / 2, y / 2) + y % 2;
    }
  }

  /** `(input_id & 0xFF, input_id >> 8)`: the scan code and the extended flag of a keyboard input id. */
  function KeyboardDecode(id: int): (r: (int, int))
    ensures 0 <= r.0 < 256
    ensures r.1 * 256 + r.0 == id
    ensures id >= 0 ==> r.1 >= 0
  {
    (id % 256, id / 256)
  }

  /** `ext << 8 | scan`: a keyboard input id from the scan code and the extended flag. */
  function KeyboardEncode(scan: nat, ext: nat): (r: nat)
    ensures scan < 256 ==> r == ext * 256 + scan
  {
    if scan < 256 then BitOrLowBits(ext, scan, 8); BitOr(ext * 256, scan)
    else BitOr(ext * 256, scan)
  }

  /** Decoding what was encoded gives back the scan code and flag, for any scan code below 256. */
  lemma DecodeEncode(scan: nat, ext: nat)
    requires scan < 256
    ensures KeyboardDecode(KeyboardEncode(scan, ext)) == (scan, ext)
  {
    var id := KeyboardEncode(scan, ext);
    var d := KeyboardDecode(id);
    assert d.1 * 256 + d.0 == ext * 256 + scan;
    assert (d.1 - ext) * 256 == scan - d.0;
  }

  /** Encoding a decoded non-negative id gives the id back. */
  lemma EncodeDecode(id: nat)
    ensures KeyboardEncode(KeyboardDecode(id).0, KeyboardDecode(id).1) == id
  {
  }

  // ---------------------------------------------------------------------
  // Mode hierarchy

  /** Parent of each mode: another mode, or None for a child of the hidden root node. */
  type ParentMap = map<string, Option<string>>

  /** Following parents upward from `m`, within `fuel` steps, reaches `a` (the root counts by its name). */
  predicate AncestorWithin(p: ParentMap, root: string, m: string, a: string, fuel: nat)
    decreases fuel
  {
    m in p && fuel > 0 &&
    match p[m]
    case None => a == root
    case Some(q) => q == a || AncestorWithin(p, root, q, a, fuel - 1)
  }

  /** Following parents upward from `m` reaches a top-level mode within `fuel` steps. */
  predicate Rooted(p: ParentMap, m: string, fuel: nat)
    decreases fuel
  {
    m in p && fuel > 0 && (p[m].None? || Rooted(p, p[m].value, fuel - 1))
  }

  /** A mode that reaches the root is not its own parent, and neither is any mode on the way. */
  lemma {:induction false} RootedNoSelfParent(p: ParentMap, m: string, fuel: nat)
    requires Rooted(p, m, fuel)
    ensures p[m] != Some(m)
    decreases fuel
  {
    if p[m] == Some(m) {
      RootedNoSelfParent(p, m, fuel - 1);
    }
  }

  lemma {:induction false} RootedMoreFuel(p: ParentMap, m: string, fuel: nat, more: nat)
    requires Rooted(p, m, fuel) && fuel <= more
    ensures Rooted(p, m, more)
    decreases fuel
  {
    if p[m].Some? {
      RootedMoreFuel(p, p[m].value, fuel - 1, more - 1);
    }
  }

  /** Adding a new top-level mode keeps every existing path to the root. */
  lemma {:induction false} RootedAdd(p: ParentMap, name: string, m: string, fuel: nat)
    requires Rooted(p, m, fuel) && name !in p
    ensures Rooted(p[name := None], m, fuel)
    decreases fuel
  {
    if p[m].Some? {
      RootedAdd(p, name, p[m].value, fuel - 1);
    }
  }

  /** The parents once `name` is gone and its children hang from its own parent. */
  function Reparented(p: ParentMap, name: string): ParentMap
    requires name in p
  {
    map m | m in p.Keys - {name} :: if p[m] == Some(name) then p[name] else p[m]
  }

  /** Deleting a mode keeps every other mode below the root. */
  lemma {:induction false} RootedDelete(p: ParentMap, name: string, m: string, fuel: nat)
    requires name in p && Rooted(p, m, fuel) && m != name
    ensures Rooted(Reparented(p, name), m, fuel)
    decreases fuel
  {
    var q := Reparented(p, name);
    if p[m].Some? {
      var up := p[m].value;
      if up != name {
        RootedDelete(p, name, up, fuel - 1);
      } else if p[name].Some? {
        var grand := p[name].value;
        RootedNoSelfParent(p, name, fuel - 1);
        RootedDelete(p, name, grand, fuel - 2);
        RootedMoreFuel(q, grand, fuel - 2, fuel - 1);
      }
    }
  }

  /** A parent after renaming `oldName` to `newName`. */
  function RenamedParent(x: Option<string>, oldName: string, newName: string): Option<string>
  {
    if x == Some(oldName) then Some(newName) else x
  }

  /** The parents once mode `oldName` is called `newName`. */
  function RenamedParents(p: ParentMap, oldName: string, newName: string): ParentMap
    requires oldName in p
  {
    (map m | m in p.Keys - {oldName} :: RenamedParent(p[m], oldName, newName))[newName := RenamedParent(p[oldName], oldName, newName)]
  }

  /** Renaming a mode to a fresh name keeps every mode, under its new name, below the root. */
  lemma {:induction false} RootedRename(p: ParentMap, oldName: string, newName: string, m: string, fuel: nat)
    requires oldName in p && newName !in p && Rooted(p, m, fuel)
    ensures Rooted(RenamedParents(p, oldName, newName), if m == oldName then newName else m, fuel)
    decreases fuel
  {
    if p[m].Some? {
      RootedRename(p, oldName, newName, p[m].value, fuel - 1);
    }
  }

  /** The items of a list that are not in the mode, in order. */
  function WithoutModeIn(items: seq<InputItem>, mode: string): (r: seq<InputItem>)
    ensures |r| <= |items|
    ensures forall x :: x in r <==> x in items && x.mode != mode
  {
    if items == [] then []
    else if items[|items| - 1].mode == mode then WithoutModeIn(items[..|items| - 1], mode)
    else WithoutModeIn(items[..|items| - 1], mode) + [items[|items| - 1]]
  }

  /** Every device's list with the items of the mode removed, as `delete_mode` rebuilds it. */
  function WithoutMode(inputs: map<Uuid, seq<InputItem>>, mode: string): (r: map<Uuid, seq<InputItem>>)
    ensures r.Keys == inputs.Keys
    ensures forall d, x :: d in r && x in r[d] ==> x.mode != mode
    ensures forall d, x :: d in r ==> (x in r[d] <==> x in inputs[d] && x.mode != mode)
  {
    map d | d in inputs :: WithoutModeIn(inputs[d], mode)
  }

  /** One item after its mode was renamed from `oldName` to `newName`. */
  function RenamedItem(x: InputItem, oldName: string, newName: string): InputItem
  {
    if x.mode == oldName then x.(mode := newName) else x
  }

  /** Every item of the old mode moved to the new one, as `rename_mode` does through `_actions_with_mode`. */
  function RenameModeIn(inputs: map<Uuid, seq<InputItem>>, oldName: string, newName: string): (r: map<Uuid, seq<InputItem>>)
    ensures r.Keys == inputs.Keys
    ensures forall d :: d in r ==> |r[d]| == |inputs[d]|
    ensures forall d, i :: d in r && 0 <= i < |r[d]| ==>
              r[d][i].mode == (if inputs[d][i].mode == oldName then newName else inputs[d][i].mode) &&
              r[d][i].(mode := inputs[d][i].mode) == inputs[d][i]
    ensures oldName != newName ==> forall d, i :: d in r && 0 <= i < |r[d]| ==> r[d][i].mode != oldName
  {
    map d | d in inputs :: seq(|inputs[d]|, i requires 0 <= i < |inputs[d]| => RenamedItem(inputs[d][i], oldName, newName))
  }

  /** `ModeHierarchy`: the modes of a profile arranged under a hidden root node. */
  class ModeHierarchy {
    /** The profile whose input items follow mode renames and deletions. */
    const profile: Profile
    /** The value of the hidden root node; `mode_exists` and `find_mode` match it too. */
    var rootName: string
    /** Every mode other than the root, with its parent. */
    var parentOf: ParentMap

    /** The root is not one of the modes, and every mode hangs below the root: the parents form a tree. */
    ghost predicate Valid()
      reads this
    {
      && rootName !in parentOf
      && forall m :: m in parentOf ==> exists f: nat :: Rooted(parentOf, m, f)
    }

    /** A root named "" with one child, "Default". */
    constructor(profile: Profile)
      ensures Valid()
      ensures this.profile == profile && rootName == "" && parentOf == map["Default" := None]
    {
      this.profile := profile;
      rootName := "";
      parentOf := map["Default" := None];
      new;
      assert Rooted(parentOf, "Default", 1);
    }

    /** `mode_exists`: some node of the tree, the root included, carries the name. */
    predicate ModeExists(name: string)
      reads this
      ensures name == rootName ==> ModeExists(name)
      ensures name != rootName ==> (ModeExists(name) <==> name in parentOf)
    {
      name == rootName || name in parentOf
    }

    /** `find_mode`: the node of that name, GremlinError when there is none. */
    function FindMode(name: string): (r: Result<Option<string>>)
      reads this
      ensures r.Ok? <==> ModeExists(name)
      ensures r.Err? ==> r.fault == GremlinError
      ensures r.Ok? && name != rootName ==> r == Ok(Some(name))
      ensures r.Ok? && name == rootName ==> r == Ok(None)
    {
      if name == rootName then Ok(None)
      else if name in parentOf then Ok(Some(name))
      else Err(GremlinError)
    }

    /** `m` lies below `a` in the tree. */
    predicate IsDescendant(m: string, a: string): (r: bool)
      reads this
      ensures r ==> m in parentOf
      ensures m in parentOf && parentOf[m] == Some(a) ==> r
      ensures m in parentOf && parentOf[m] == None && a == rootName ==> r
    {
      AncestorWithin(parentOf, rootName, m, a, |parentOf|)
    }

    /**
     * `valid_parents`: all modes other than the mode itself and its
     * descendants, sorted; GremlinError for an unknown mode.
     */
    method ValidParents(name: string) returns (r: Result<seq<string>>)
      ensures r.Ok? <==> ModeExists(name)
      ensures r.Err? ==> r.fault == GremlinError
      ensures r.Ok? ==> StrictlySorted(r.value)
      ensures r.Ok? ==> forall m :: m in r.value <==> m in parentOf && m != name && !IsDescendant(m, name)
    {
      if !ModeExists(name) {
        return Err(GremlinError);
      }
      var candidates: set<string> := {};
      var remaining := parentOf.Keys;
      while remaining != {}
        invariant remaining <= parentOf.Keys
        invariant forall m :: m in candidates <==> m in parentOf && m !in remaining && m != name && !IsDescendant(m, name)
        decreases |remaining|
      {
        var m :| m in remaining;
        if m != name && !IsDescendant(m, name) {
          candidates := candidates + {m};
        }
        remaining := remaining - {m};
      }
      r := Ok(Sorted(candidates));
    }

    /** `add_mode`: a new top-level mode; GremlinError for a name already in use. */
    method AddMode(name: string) returns (o: Outcome)
      requires Valid()
      modifies this
      ensures Valid()
      ensures old(ModeExists(name)) ==> o == Raised(GremlinError) && parentOf == old(parentOf)
      ensures !old(ModeExists(name)) ==> o == Done && parentOf == old(parentOf)[name := None]
      ensures rootName == old(rootName) && ModeExists(name)
    {
      if ModeExists(name) {
        return Raised(GremlinError);
      }
      var p := parentOf;
      parentOf := p[name := None];
      forall m | m in parentOf ensures exists f: nat :: Rooted(parentOf, m, f) {
        if m == name {
          assert Rooted(parentOf, m, 1);
        } else {
          var f: nat :| Rooted(p, m, f);
          RootedAdd(p, name, m, f);
        }
      }
      o := Done;
    }

    /**
     * `delete_mode`: GremlinError for an unknown mode. Otherwise the mode's
     * children move up to its parent and every input item of the mode is
     * removed from the profile.
     */
    method DeleteMode(name: string) returns (o: Outcome)
      requires Valid()
      modifies this, profile
      ensures Valid() && rootName == old(rootName)
      ensures !old(ModeExists(name)) ==> o == Raised(GremlinError) && parentOf == old(parentOf) && profile.inputs == old(profile.inputs)
      ensures old(ModeExists(name)) ==> o == Done && profile.inputs == WithoutMode(old(profile.inputs), name)
      ensures old(name in parentOf) ==>
                parentOf.Keys == old(parentOf).Keys - {name} &&
                forall m :: m in parentOf ==>
                  parentOf[m] == (if old(parentOf)[m] == Some(name) then old(parentOf)[name] else old(parentOf)[m])
      ensures name == old(rootName) ==> parentOf == old(parentOf)
    {
      if !ModeExists(name) {
        return Raised(GremlinError);
      }
      if name in parentOf {
        var p := parentOf;
        parentOf := Reparented(p, name);
        forall m | m in parentOf ensures exists f: nat :: Rooted(parentOf, m, f) {
          var f: nat :| Rooted(p, m, f);
          RootedDelete(p, name, m, f);
        }
      }
      profile.inputs := WithoutMode(profile.inputs, name);
      o := Done;
    }

    /**
     * `rename_mode`: equal names change nothing; an unknown old name or a
     * new name already in use raises GremlinError. Otherwise the node takes
     * the new name, its children follow it, and every input item of the old
     * mode moves to the new one.
     */
    method RenameMode(oldName: string, newName: string) returns (o: Outcome)
      requires Valid()
      modifies this, profile
      ensures Valid()
      ensures oldName == newName ==> o == Done && parentOf == old(parentOf) && rootName == old(rootName) && profile.inputs == old(profile.inputs)
      ensures oldName != newName && (!old(ModeExists(oldName)) || old(ModeExists(newName))) ==>
                o == Raised(GremlinError) && parentOf == old(parentOf) && rootName == old(rootName) && profile.inputs == old(profile.inputs)
      ensures oldName != newName && old(ModeExists(oldName)) && !old(ModeExists(newName)) ==>
                o == Done && !ModeExists(oldName) && ModeExists(newName) &&
                profile.inputs == RenameModeIn(old(profile.inputs), oldName, newName)
      ensures o == Done && oldName != newName && oldName in old(parentOf) ==>
                parentOf.Keys == old(parentOf).Keys - {oldName} + {newName} && rootName == old(rootName) &&
                parentOf[newName] == RenamedParent(old(parentOf)[oldName], oldName, newName) &&
                forall m :: m in old(parentOf) && m != oldName ==>
                  parentOf[m] == (if old(parentOf)[m] == Some(oldName) then Some(newName) else old(parentOf)[m])
      ensures o == Done && oldName != newName && oldName == old(rootName) ==> rootName == newName && parentOf == old(parentOf)
    {
      if oldName == newName {
        return Done;
      }
      if !ModeExists(oldName) || ModeExists(newName) {
        return Raised(GremlinError);
      }
      if oldName == rootName {
        rootName := newName;
      } else {
        var p := parentOf;
        parentOf := RenamedParents(p, oldName, newName);
        forall m | m in parentOf ensures exists f: nat :: Rooted(parentOf, m, f) {
          var m0 := if m == newName then oldName else m;
          var f: nat :| Rooted(p, m0, f);
          RootedRename(p, oldName, newName, m0, f);
        }
      }
      profile.inputs := RenameModeIn(profile.inputs, oldName, newName);
      o := Done;
    }
  }
}
