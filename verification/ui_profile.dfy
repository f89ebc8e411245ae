// The profile editor's models of gremlin/ui/profile.py: the virtual button
// settings, the hat direction check boxes, the order of an input's action
// sequences, the numbering of the actions of one sequence as the editor
// lays them out, and the generic label/value combo box model.
module ProfileModels {
  import opened PyCore
  import opened GremlinTypes
  import BaseClasses

  // ---------------------------------------------------------------------
  // Virtual buttons

  /**
   * A virtual button of the profile: `VirtualAxisButton` (its axis range) and
   * `VirtualHatButton` (its hat directions) as one class, because the
   * editor's VirtualButtonModel reads and writes both kinds through the same
   * fields.
   */
  class VirtualButton {
    var lowerLimit: real
    var upperLimit: real
    var directions: seq<HatDirection>

    /** `VirtualAxisButton.__init__`: the two limits; an axis button lists no direction. */
    constructor Axis(lowerLimit: real, upperLimit: real)
      ensures this.lowerLimit == lowerLimit && this.upperLimit == upperLimit && directions == []
    {
      this.lowerLimit := lowerLimit;
      this.upperLimit := upperLimit;
      directions := [];
    }

    /** `VirtualHatButton.__init__`: each given direction once, as `list(set(directions))` keeps them. */
    constructor Hat(directions: seq<HatDirection>)
      ensures Distinct(this.directions)
      ensures forall d :: d in this.directions <==> d in directions
      ensures lowerLimit == 0.0 && upperLimit == 0.0
    {
      lowerLimit := 0.0;
      upperLimit := 0.0;
      this.directions := Deduplicated(directions);
    }
  }

  /**
   * `list(set(s))`: every value of `s` exactly once. The order of a set's
   * iteration is not fixed by the language; this keeps first occurrences.
   */
  function Deduplicated(s: seq<HatDirection>): (r: seq<HatDirection>)
    ensures Distinct(r)
    ensures forall x :: x in r <==> x in s
    decreases |s|
  {
    if s == [] then []
    else
      var init, last := s[..|s| - 1], s[|s| - 1];
      assert s == init + [last];
      var rest := Deduplicated(init);
      if last in rest then rest else rest + [last]
  }

  /** What deleting position k of a list leaves. */
  lemma DeleteAt<T>(s: seq<T>, k: nat)
    requires k < |s|
    ensures |s[..k] + s[k + 1..]| == |s| - 1
    ensures forall i :: 0 <= i < k ==> (s[..k] + s[k + 1..])[i] == s[i]
    ensures forall i :: k < i < |s| ==> (s[..k] + s[k + 1..])[i - 1] == s[i]
    ensures multiset(s[..k] + s[k + 1..]) + multiset{s[k]} == multiset(s)
  {
    assert s == s[..k] + [s[k]] + s[k + 1..];
  }

  /** Deleting position k keeps every other value and a distinct list distinct, without the deleted value. */
  lemma DeleteAtMembers<T>(s: seq<T>, k: nat)
    requires k < |s|
    ensures forall e :: e != s[k] ==> (e in s[..k] + s[k + 1..] <==> e in s)
    ensures Distinct(s) ==> Distinct(s[..k] + s[k + 1..]) && s[k] !in s[..k] + s[k + 1..]
  {
    DeleteAt(s, k);
    var r := s[..k] + s[k + 1..];
    forall e | e != s[k] ensures e in r <==> e in s {
      if e in s {
        var i :| 0 <= i < |s| && s[i] == e;
        if i < k { assert r[i] == e; } else { assert r[i - 1] == e; }
      }
    }
    if Distinct(s) {
      forall i, j | 0 <= i < j < |r| ensures r[i] != r[j] {
        var i' := if i < k then i else i + 1;
        var j' := if j < k then j else j + 1;
        assert r[i] == s[i'] && r[j] == s[j'];
      }
      forall i | 0 <= i < |r| ensures r[i] != s[k] {
        var i' := if i < k then i else i + 1;
        assert r[i] == s[i'];
      }
    }
  }

  /**
   * `_set_hat_state`: activating appends the direction unless it is listed
   * already; deactivating deletes its first occurrence if there is one.
   */
  function ToggledDirections(ds: seq<HatDirection>, d: HatDirection, active: bool): (r: seq<HatDirection>)
    ensures active ==> d in r
    ensures !active && Distinct(ds) ==> d !in r
    ensures forall e :: e != d ==> (e in r <==> e in ds)
    ensures Distinct(ds) ==> Distinct(r)
    ensures (d in ds) == active ==> r == ds
  {
    if active then
      if d in ds then ds else ds + [d]
    else
      if d in ds then
        var k := FirstIndex(ds, d);
        DeleteAtMembers(ds, k);
        var r := BaseClasses.RemoveEntry(ds, d);
        assert r == ds[..k] + ds[k + 1..];
        r
      else ds
  }

  /** `VirtualButtonModel`: the editor's view of one virtual button. */
  class VirtualButtonModel {
    const button: VirtualButton

    constructor(button: VirtualButton)
      ensures this.button == button
    {
      this.button := button;
    }

    /**
     * `lowerLimit` write: a value other than the stored one is stored
     * clamped to [-1, 1]; the stored value itself changes nothing.
     */
    method SetLowerLimit(value: real)
      modifies button
      ensures button.upperLimit == old(button.upperLimit) && button.directions == old(button.directions)
      ensures value == old(button.lowerLimit) ==> button.lowerLimit == old(button.lowerLimit)
      ensures value != old(button.lowerLimit) ==> button.lowerLimit == Clamp(value, -1.0, 1.0)
      ensures button.lowerLimit == LimitWrite(old(button.lowerLimit), value)
    {
      if value != button.lowerLimit {
        button.lowerLimit := Clamp(value, -1.0, 1.0);
      }
    }

    /** `upperLimit` write: as SetLowerLimit, for the upper end. */
    method SetUpperLimit(value: real)
      modifies button
      ensures button.lowerLimit == old(button.lowerLimit) && button.directions == old(button.directions)
      ensures value == old(button.upperLimit) ==> button.upperLimit == old(button.upperLimit)
      ensures value != old(button.upperLimit) ==> button.upperLimit == Clamp(value, -1.0, 1.0)
      ensures button.upperLimit == LimitWrite(old(button.upperLimit), value)
    {
      if value != button.upperLimit {
        button.upperLimit := Clamp(value, -1.0, 1.0);
      }
    }

    /** The `hatNorth` ... `hatNorthWest` reads. */
    predicate HatState(d: HatDirection)
      reads button
      ensures HatState(d) <==> exists i :: 0 <= i < |button.directions| && button.directions[i] == d
    {
      d in button.directions
    }

    /** The `hatNorth` ... `hatNorthWest` writes. */
    method SetHatState(d: HatDirection, active: bool)
      modifies button
      ensures button.lowerLimit == old(button.lowerLimit) && button.upperLimit == old(button.upperLimit)
      ensures button.directions == ToggledDirections(old(button.directions), d, active)
    {
      if active {
        if d !in button.directions {
          button.directions := button.directions + [d];
        }
      } else {
        if d in button.directions {
          button.directions := BaseClasses.RemoveEntry(button.directions, d);
        }
      }
    }
  }

  /**
   * The limit one write through the model leaves: the stored limit when the
   * value equals it, otherwise the value clamped to [-1, 1].
   */
  function LimitWrite(stored: real, value: real): (r: real)
    ensures value == stored ==> r == stored
    ensures value != stored ==> -1.0 <= r <= 1.0
    ensures value != stored && -1.0 <= value <= 1.0 ==> r == value
  {
    if value == stored then stored else Clamp(value, -1.0, 1.0)
  }

  /** The limit after a run of writes, first to last. */
  function LimitWrites(stored: real, values: seq<real>): real
    decreases |values|
  {
    if values == [] then stored else LimitWrites(LimitWrite(stored, values[0]), values[1..])
  }

  /** A limit that starts in [-1, 1] stays there through any run of writes. */
  lemma {:induction false} LimitsStayInRange(stored: real, values: seq<real>)
    requires -1.0 <= stored <= 1.0
    ensures -1.0 <= LimitWrites(stored, values) <= 1.0
    decreases |values|
  {
    if values != [] {
      LimitsStayInRange(LimitWrite(stored, values[0]), values[1..]);
    }
  }

  /** Whatever limit is stored, a run ending in a write of a value in range other than the limit before it stores that value. */
  lemma {:induction false} LastWriteInRangeWins(stored: real, values: seq<real>, value: real)
    requires -1.0 <= value <= 1.0 && value != LimitWrites(stored, values)
    ensures LimitWrites(stored, values + [value]) == value
    decreases |values|
  {
    if values != [] {
      assert (values + [value])[1..] == values[1..] + [value];
      LastWriteInRangeWins(LimitWrite(stored, values[0]), values[1..], value);
    }
  }

  /**
   * `HatDirectionModel`: the hat direction check boxes over a list of
   * directions. The model holds its own copy of the list it is given.
   */
  class HatDirectionModel {
    var directions: seq<HatDirection>

    constructor(directions: seq<HatDirection>)
      ensures this.directions == directions
    {
      this.directions := directions;
    }

    /** `_get_hat_state`: the direction is listed. */
    predicate HatState(d: HatDirection)
      reads this
      ensures HatState(d) <==> exists i :: 0 <= i < |directions| && directions[i] == d
    {
      d in directions
    }

    /** `_set_hat_state`; a direction is listed afterwards exactly when it was activated. */
    method SetHatState(d: HatDirection, active: bool)
      modifies this
      ensures directions == ToggledDirections(old(directions), d, active)
      ensures Distinct(old(directions)) ==> HatState(d) == active
    {
      if active {
        if d !in directions {
          directions := directions + [d];
        }
      } else {
        if d in directions {
          directions := BaseClasses.RemoveEntry(directions, d);
        }
      }
    }
  }

  /** Any run of check box writes starting from no directions leaves no duplicates. */
  lemma {:induction false} TogglesKeepDistinct(ds: seq<HatDirection>, writes: seq<(HatDirection, bool)>)
    requires Distinct(ds)
    ensures Distinct(ApplyToggles(ds, writes))
    decreases |writes|
  {
    if writes != [] {
      TogglesKeepDistinct(ToggledDirections(ds, writes[0].0, writes[0].1), writes[1..]);
    }
  }

  /** The directions after a run of check box writes. */
  function ApplyToggles(ds: seq<HatDirection>, writes: seq<(HatDirection, bool)>): seq<HatDirection>
    decreases |writes|
  {
    if writes == [] then ds else ApplyToggles(ToggledDirections(ds, writes[0].0, writes[0].1), writes[1..])
  }

  // ---------------------------------------------------------------------
  // The order of an input's action sequences

  /**
   * Dropping sequence `source` on sequence `target`: it is taken out and put
   * right after the target; with no such target it stays out.
   */
  function MovedAfter(s: seq<Uuid>, source: Uuid, target: Uuid): (r: seq<Uuid>)
    requires source != target
  {
    if source !in s then s
    else
      var k := FirstIndex(s, source);
      var rest := s[..k] + s[k + 1..];
      if target !in rest then rest
      else
        var t := FirstIndex(rest, target);
        rest[..t + 1] + [source] + rest[t + 1..]
  }

  /** Taking the source out of a list of distinct ids keeps every other id. */
  lemma TakenOut(s: seq<Uuid>, source: Uuid)
    requires source in s && Distinct(s)
    ensures var k := FirstIndex(s, source); var rest := s[..k] + s[k + 1..];
            && Distinct(rest) && source !in rest
            && multiset(rest) + multiset{source} == multiset(s)
            && forall e :: e != source ==> (e in rest <==> e in s)
  {
    var k := FirstIndex(s, source);
    var rest := s[..k] + s[k + 1..];
    assert s[k] == source;
    DeleteAt(s, k);
    assert multiset(rest) + multiset{source} == multiset(s);
    DeleteAtMembers(s, k);
  }

  /** With distinct ids and both present, the drop only reorders the list. */
  lemma MovedAfterPermutes(s: seq<Uuid>, source: Uuid, target: Uuid)
    requires source != target && Distinct(s) && source in s && target in s
    ensures multiset(MovedAfter(s, source, target)) == multiset(s)
  {
    TakenOut(s, source);
    var k := FirstIndex(s, source);
    var rest := s[..k] + s[k + 1..];
    assert target in rest;
    var t := FirstIndex(rest, target);
    assert MovedAfter(s, source, target) == rest[..t + 1] + [source] + rest[t + 1..];
    assert rest == rest[..t + 1] + rest[t + 1..];
    assert multiset(rest[..t + 1] + [source] + rest[t + 1..]) == multiset(rest[..t + 1]) + multiset{source} + multiset(rest[t + 1..]);
  }

  /** With distinct ids and both present, the source lands right after the target. */
  lemma MovedAfterAdjacent(s: seq<Uuid>, source: Uuid, target: Uuid)
    requires source != target && Distinct(s) && source in s && target in s
    ensures exists t :: 0 <= t < |s| - 1 && MovedAfter(s, source, target)[t] == target && MovedAfter(s, source, target)[t + 1] == source
  {
    TakenOut(s, source);
    var k := FirstIndex(s, source);
    var rest := s[..k] + s[k + 1..];
    assert target in rest;
    var t := FirstIndex(rest, target);
    var r := rest[..t + 1] + [source] + rest[t + 1..];
    assert MovedAfter(s, source, target) == r;
    assert r[t] == target && r[t + 1] == source && t < |s| - 1;
  }

  /** With distinct ids and no such target, the dropped sequence is lost. */
  lemma MovedAfterLosesSource(s: seq<Uuid>, source: Uuid, target: Uuid)
    requires source != target && Distinct(s) && source in s && target !in s
    ensures |MovedAfter(s, source, target)| == |s| - 1
    ensures source !in MovedAfter(s, source, target)
    ensures forall e :: e != source ==> (e in MovedAfter(s, source, target) <==> e in s)
  {
    TakenOut(s, source);
  }

  /** `InputItemModel`: the action sequences of one input, each known by its root action's id. */
  class InputItemModel {
    var sequences: seq<Uuid>

    constructor(sequences: seq<Uuid>)
      ensures this.sequences == sequences
    {
      this.sequences := sequences;
    }

    /** `rowCount`: one row per action sequence. */
    function RowCount(): (r: nat)
      reads this
      ensures r == |sequences|
    {
      |sequences|
    }

    /**
     * `dropAction`: nothing moves when source and target are the same;
     * otherwise the first loop pops the source out of the list it is
     * enumerating and the second inserts it after the target, both loops
     * running on to the end of the changing list.
     */
    method DropAction(source: Uuid, target: Uuid)
      modifies this
      ensures source == target ==> sequences == old(sequences)
      ensures source != target && Distinct(old(sequences)) ==> sequences == MovedAfter(old(sequences), source, target)
    {
      if source == target {
        return;
      }
      var entry := PopSource(source);
      if entry.Some? {
        InsertAfterTarget(target, entry.value);
      }
    }

    /** The first loop of `dropAction`. */
    method PopSource(source: Uuid) returns (entry: Option<Uuid>)
      modifies this
      ensures entry.None? <==> source !in old(sequences)
      ensures entry.None? ==> sequences == old(sequences)
      ensures entry.Some? ==> entry.value == source
      ensures entry.Some? && Distinct(old(sequences)) ==>
                var k := FirstIndex(old(sequences), source); sequences == old(sequences)[..k] + old(sequences)[k + 1..]
    {
      ghost var s := sequences;
      entry := None;
      var idx := 0;
      while idx < |sequences|
        invariant 0 <= idx
        invariant entry.None? ==> sequences == s && idx <= |s| && source !in s[..idx]
        invariant entry.Some? ==> entry.value == source && source in s
        invariant entry.Some? && Distinct(s) ==>
                    sequences == s[..FirstIndex(s, source)] + s[FirstIndex(s, source) + 1..] && source !in sequences
      {
        if sequences[idx] == source {
          if entry.None? {
            assert forall j :: 0 <= j < idx ==> s[j] != source by {
              forall j | 0 <= j < idx ensures s[j] != source {
                assert s[j] == s[..idx][j];
              }
            }
            assert FirstIndex(s, source) == idx;
            if Distinct(s) {
              TakenOut(s, source);
            }
          } else if Distinct(s) {
            assert false;
          }
          entry := Some(sequences[idx]);
          sequences := sequences[..idx] + sequences[idx + 1..];
        } else if entry.None? {
          assert s[..idx + 1] == s[..idx] + [s[idx]];
        }
        idx := idx + 1;
      }
      if entry.None? {
        assert s[..idx] == s;
      }
    }

    /** The second loop of `dropAction`. */
    method InsertAfterTarget(target: Uuid, entry: Uuid)
      requires entry != target
      modifies this
      ensures target !in old(sequences) ==> sequences == old(sequences)
      ensures target in old(sequences) && Distinct(old(sequences)) ==>
                var t := FirstIndex(old(sequences), target);
                sequences == old(sequences)[..t + 1] + [entry] + old(sequences)[t + 1..]
    {
      ghost var rest := sequences;
      ghost var t := if target in rest then FirstIndex(rest, target) else |rest|;
      ghost var moved := if t < |rest| then rest[..t + 1] + [entry] + rest[t + 1..] else rest;
      ghost var justInserted := false;
      if Distinct(rest) && target in rest {
        AfterFirstNotEqual(rest, target);
      }
      var idx := 0;
      while idx < |sequences|
        invariant 0 <= idx <= |sequences|
        invariant justInserted ==> idx < |sequences| && sequences[idx] == entry
        invariant target !in rest ==> sequences == rest
        invariant Distinct(rest) && target in rest && idx <= t ==> sequences == rest
        invariant Distinct(rest) && target in rest && idx > t ==> sequences == moved && idx <= |moved|
        decreases 2 * (|sequences| - idx) - (if justInserted then 1 else 0)
      {
        if sequences[idx] == target {
          sequences := sequences[..idx + 1] + [entry] + sequences[idx + 1..];
          justInserted := true;
        } else {
          justInserted := false;
        }
        idx := idx + 1;
      }
    }
  }

  /** In a list of distinct ids nothing after an id's position equals it. */
  lemma AfterFirstNotEqual(s: seq<Uuid>, x: Uuid)
    requires x in s && Distinct(s)
    ensures forall j :: FirstIndex(s, x) < j < |s| ==> s[j] != x
  {
  }

  // ---------------------------------------------------------------------
  // Numbering the actions of one action sequence

  /**
   * An action as the editor walks it: its id and, in order, the children
   * its `get_actions` lists, each with the name of the container it sits in.
   */
  datatype ActionTree = ActionNode(action: Uuid, children: seq<(ActionTree, string)>)

  /** The number of actions in a tree. */
  function Size(t: ActionTree): nat
    decreases t, 1
  {
    1 + ChildrenSize(t, |t.children|)
  }

  /** The number of actions under the first n children of a node. */
  function ChildrenSize(t: ActionTree, n: nat): nat
    requires n <= |t.children|
    decreases t, 0, n
  {
    if n == 0 then 0 else ChildrenSize(t, n - 1) + Size(t.children[n - 1].0)
  }

  /** An entry of the work queue: the action, its container, its parent's index and its position in the container. */
  datatype Pending = Pending(tree: ActionTree, container: Option<string>, parent: Option<nat>, containerIndex: nat)

  /**
   * The `SequenceIndex` of an action together with its container index:
   * its number, its parent's number (None for the root), and the container
   * it sits in (None for the root).
   */
  datatype ActionEntry = ActionEntry(action: Uuid, index: nat, parent: Option<nat>, container: Option<string>, containerIndex: nat)

  /** The number of actions still to be numbered in a queue. */
  function QueueSize(q: seq<Pending>): nat
  {
    if q == [] then 0 else QueueSize(q[..|q| - 1]) + Size(q[|q| - 1].tree)
  }

  lemma {:induction false} QueueSizeAppend(a: seq<Pending>, b: seq<Pending>)
    ensures QueueSize(a + b) == QueueSize(a) + QueueSize(b)
    decreases |b|
  {
    if b != [] {
      assert (a + b)[..|a + b| - 1] == a + b[..|b| - 1];
      QueueSizeAppend(a, b[..|b| - 1]);
    } else {
      assert a + b == a;
    }
  }

  /** The container names of a list of children. */
  function Names(cs: seq<(ActionTree, string)>): (r: seq<string>)
    ensures |r| == |cs| && forall i :: 0 <= i < |cs| ==> r[i] == cs[i].1
  {
    seq(|cs|, i requires 0 <= i < |cs| => cs[i].1)
  }

  /**
   * The container index each child gets: counting from 0, and back to 0
   * whenever the container differs from the previous child's.
   */
  function ContainerNumbers(names: seq<string>): (r: seq<nat>)
    ensures |r| == |names|
    decreases |names|
  {
    if names == [] then []
    else
      var n := |names| - 1;
      var p := ContainerNumbers(names[..n]);
      p + [if n > 0 && names[n] == names[n - 1] then p[n - 1] + 1 else 0]
  }

  /** The first child gets 0; each later one one more than its predecessor when they share a container, else 0. */
  lemma {:induction false} ContainerNumbersRestart(names: seq<string>)
    ensures |names| > 0 ==> ContainerNumbers(names)[0] == 0
    ensures forall i :: 0 < i < |names| ==>
              ContainerNumbers(names)[i] == if names[i] == names[i - 1] then ContainerNumbers(names)[i - 1] + 1 else 0
    decreases |names|
  {
    if names != [] {
      var n := |names| - 1;
      ContainerNumbersRestart(names[..n]);
      assert forall i :: 0 <= i < n ==> names[..n][i] == names[i];
      assert forall i :: 0 <= i < n ==> ContainerNumbers(names)[i] == ContainerNumbers(names[..n])[i];
    }
  }

  /**
   * The container index of a child is its offset in the longest run of
   * consecutive children with its container name: the children back to
   * that offset share the name, and the one before them (if any) does not.
   * When each container's children are listed together, as `get_actions`
   * lists them, this is the child's position in its container.
   */
  lemma {:induction false} ContainerNumbersAreRunOffsets(names: seq<string>, i: nat)
    requires i < |names|
    ensures ContainerNumbers(names)[i] <= i
    ensures forall j :: i - ContainerNumbers(names)[i] <= j <= i ==> names[j] == names[i]
    ensures ContainerNumbers(names)[i] < i ==> names[i - ContainerNumbers(names)[i] - 1] != names[i]
  {
    var r := ContainerNumbers(names);
    ContainerNumbersRestart(names);
    if i > 0 && names[i] == names[i - 1] {
      ContainerNumbersAreRunOffsets(names, i - 1);
      assert r[i] == r[i - 1] + 1;
    }
  }

  /** The queue entries for a node's children, the node having number `parent`. */
  function ChildItems(t: ActionTree, parent: nat): (r: seq<Pending>)
    ensures |r| == |t.children|
  {
    var numbers := ContainerNumbers(Names(t.children));
    seq(|t.children|, i requires 0 <= i < |t.children| =>
      Pending(t.children[i].0, Some(t.children[i].1), Some(parent), numbers[i]))
  }

  /** Child i is queued with its own tree and container, its parent's number and its container index. */
  lemma ChildItemsShape(t: ActionTree, parent: nat)
    ensures forall i :: 0 <= i < |t.children| ==>
              ChildItems(t, parent)[i] == Pending(t.children[i].0, Some(t.children[i].1), Some(parent), ContainerNumbers(Names(t.children))[i])
  {
  }

  lemma {:induction false} QueueSizeOfChildren(q: seq<Pending>, t: ActionTree, n: nat)
    requires n <= |t.children| && |q| == n && forall i :: 0 <= i < n ==> q[i].tree == t.children[i].0
    ensures QueueSize(q) == ChildrenSize(t, n)
    decreases n
  {
    if n > 0 {
      QueueSizeOfChildren(q[..n - 1], t, n - 1);
    }
  }

  /** The entry the head of the queue gets when it is given number `count`. */
  function Head(q: seq<Pending>, count: nat): ActionEntry
    requires q != []
  {
    ActionEntry(q[0].tree.action, count, q[0].parent, q[0].container, q[0].containerIndex)
  }

  /** The queue after the head, numbered `count`, is taken off and its children are queued. */
  function Next(q: seq<Pending>, count: nat): seq<Pending>
    requires q != []
  {
    q[1..] + ChildItems(q[0].tree, count)
  }

  /** Taking the head of the queue and queueing its children leaves one action fewer to number. */
  lemma QueueStep(q: seq<Pending>, count: nat)
    requires q != []
    ensures QueueSize(Next(q, count)) == QueueSize(q) - 1
  {
    assert q == [q[0]] + q[1..];
    QueueSizeAppend([q[0]], q[1..]);
    assert [q[0]][..0] == [];
    QueueSizeAppend(q[1..], ChildItems(q[0].tree, count));
    ChildItemsShape(q[0].tree, count);
    QueueSizeOfChildren(ChildItems(q[0].tree, count), q[0].tree, |q[0].tree.children|);
  }

  /** The numbering `_create_action_models` produces, breadth first from the queue. */
  function Bfs(q: seq<Pending>, count: nat): seq<ActionEntry>
    decreases QueueSize(q)
  {
    if q == [] then []
    else
      QueueStep(q, count);
      [Head(q, count)] + Bfs(Next(q, count), count + 1)
  }

  /** Numbering the head of the queue moves one entry from the pending numbering to the numbered ones. */
  lemma BfsAdvance(numbered: seq<ActionEntry>, q: seq<Pending>, count: nat)
    requires q != []
    ensures (numbered + [Head(q, count)]) + Bfs(Next(q, count), count + 1) == numbered + Bfs(q, count)
  {
    QueueStep(q, count);
  }

  /** The queue `_create_action_models` starts from: the root, with no parent and no container. */
  function Start(root: ActionTree): seq<Pending>
  {
    [Pending(root, None, None, 0)]
  }

  /** Every action in the queue gets one entry, and the entries are numbered on from `count`. */
  lemma {:induction false} BfsNumbers(q: seq<Pending>, count: nat)
    ensures |Bfs(q, count)| == QueueSize(q)
    ensures forall i :: 0 <= i < |Bfs(q, count)| ==> Bfs(q, count)[i].index == count + i
    decreases QueueSize(q)
  {
    if q != [] {
      QueueStep(q, count);
      BfsNumbers(Next(q, count), count + 1);
    }
  }

  /** Every queued parent number is below `count`, and only the head may lack a parent. */
  predicate QueuedParents(q: seq<Pending>, count: nat)
  {
    && (forall k :: 0 <= k < |q| && q[k].parent.Some? ==> q[k].parent.value < count)
    && (forall k :: 1 <= k < |q| ==> q[k].parent.Some?)
  }

  /** Every entry but the first has a parent, numbered below its own number. */
  predicate ParentsEarlier(b: seq<ActionEntry>, count: nat)
  {
    && (forall i :: 0 <= i < |b| && b[i].parent.Some? ==> b[i].parent.value < count + i)
    && (forall i :: 1 <= i < |b| ==> b[i].parent.Some?)
  }

  /** Only the first queue entry may lack a parent, and every parent is numbered before its children. */
  lemma {:induction false} BfsParents(q: seq<Pending>, count: nat)
    requires QueuedParents(q, count)
    ensures ParentsEarlier(Bfs(q, count), count)
    decreases QueueSize(q)
  {
    if q != [] {
      QueueStep(q, count);
      NextQueueParents(q, count);
      BfsParents(Next(q, count), count + 1);
      ParentsEarlierCons(Head(q, count), Bfs(Next(q, count), count + 1), count);
    }
  }

  lemma ParentsEarlierCons(e: ActionEntry, rest: seq<ActionEntry>, count: nat)
    requires e.parent.Some? ==> e.parent.value < count
    requires ParentsEarlier(rest, count + 1) && forall i :: 0 <= i < |rest| ==> rest[i].parent.Some?
    ensures ParentsEarlier([e] + rest, count)
  {
    var b := [e] + rest;
    assert forall i :: 1 <= i < |b| ==> b[i] == rest[i - 1];
  }

  /** After a step every queued entry has a parent numbered before the next number. */
  lemma NextQueueParents(q: seq<Pending>, count: nat)
    requires q != [] && QueuedParents(q, count)
    ensures QueuedParents(Next(q, count), count + 1)
    ensures forall k :: 0 <= k < |Next(q, count)| ==> Next(q, count)[k].parent.Some?
  {
    var q' := Next(q, count);
    ChildItemsShape(q[0].tree, count);
    forall k | 0 <= k < |q'| ensures q'[k].parent.Some? && q'[k].parent.value < count + 1 {
      if k < |q| - 1 {
        assert q'[k] == q[k + 1];
      } else {
        assert q'[k] == ChildItems(q[0].tree, count)[k - (|q| - 1)];
      }
    }
  }

  /**
   * The layout of a whole sequence: the root is action 0 with no parent or
   * container, there is one entry per action numbered 0, 1, 2, ..., and
   * every other action has a parent numbered before it.
   */
  lemma Layout(root: ActionTree)
    ensures var b := Bfs(Start(root), 0);
            && |b| == Size(root)
            && b[0] == ActionEntry(root.action, 0, None, None, 0)
            && (forall i :: 0 <= i < |b| ==> b[i].index == i)
            && (forall i :: 1 <= i < |b| ==> b[i].parent.Some? && b[i].parent.value < i)
  {
    BfsNumbers(Start(root), 0);
    BfsParents(Start(root), 0);
    assert Bfs(Start(root), 0)[0] == Head(Start(root), 0);
    assert QueueSize(Start(root)) == Size(root) by {
      assert Start(root)[..0] == [];
    }
  }

  /** The key of `_child_lookup`: parent number and container name. */
  function KeyOf(e: ActionEntry): (Option<nat>, Option<string>)
  {
    (e.parent, e.container)
  }

  /** `_child_lookup`: the numbers of the entries under each key, in order. */
  function Grouped(es: seq<ActionEntry>): map<(Option<nat>, Option<string>), seq<nat>>
    decreases |es|
  {
    if es == [] then map[]
    else
      var g := Grouped(es[..|es| - 1]);
      var e := es[|es| - 1];
      g[KeyOf(e) := (if KeyOf(e) in g then g[KeyOf(e)] else []) + [e.index]]
  }

  /** Every entry is filed under its key, and a key holds only the numbers of entries with that key. */
  lemma {:induction false} GroupedMembers(es: seq<ActionEntry>)
    ensures forall i :: 0 <= i < |es| ==> KeyOf(es[i]) in Grouped(es) && es[i].index in Grouped(es)[KeyOf(es[i])]
    ensures forall k, x :: k in Grouped(es) && x in Grouped(es)[k] ==> exists i :: 0 <= i < |es| && es[i].index == x && KeyOf(es[i]) == k
    decreases |es|
  {
    if es != [] {
      var n := |es| - 1;
      GroupedMembers(es[..n]);
      assert forall i :: 0 <= i < n ==> es[..n][i] == es[i];
    }
  }

  /** Filing one more entry appends its number under its key. */
  lemma GroupedStep(es: seq<ActionEntry>, e: ActionEntry)
    ensures var g := Grouped(es);
            Grouped(es + [e]) == g[KeyOf(e) := (if KeyOf(e) in g then g[KeyOf(e)] else []) + [e.index]]
  {
    assert (es + [e])[..|es|] == es;
  }

  /** The largest of a non-empty list: what `sorted(indices)[-1]` reads. */
  function MaxOf(xs: seq<nat>): (r: nat)
    requires xs != []
    ensures r in xs && forall i :: 0 <= i < |xs| ==> xs[i] <= r
    decreases |xs|
  {
    if |xs| == 1 then xs[0]
    else
      var m := MaxOf(xs[1..]);
      assert forall i :: 1 <= i < |xs| ==> xs[i] == xs[1..][i - 1];
      if xs[0] >= m then xs[0] else m
  }

  /** The container indices of the listed entries, in list order. */
  function ContainerIndices(es: seq<ActionEntry>, xs: seq<nat>): (r: seq<nat>)
    requires forall k :: 0 <= k < |xs| ==> xs[k] < |es|
    ensures |r| == |xs|
  {
    seq(|xs|, k requires 0 <= k < |xs| => es[xs[k]].containerIndex)
  }

  /**
   * When `xs` lists exactly the entries under `key`, the largest of their
   * container indices bounds the container index of every entry under
   * `key`, and is one of them.
   */
  lemma SiblingMax(es: seq<ActionEntry>, xs: seq<nat>, key: (Option<nat>, Option<string>))
    requires xs != []
    requires forall x :: x in xs ==> x < |es| && KeyOf(es[x]) == key
    requires forall j :: 0 <= j < |es| && KeyOf(es[j]) == key ==> j in xs
    ensures forall k :: 0 <= k < |xs| ==> xs[k] < |es|
    ensures var m := MaxOf(ContainerIndices(es, xs));
            && (forall j :: 0 <= j < |es| && KeyOf(es[j]) == key ==> es[j].containerIndex <= m)
            && (exists j :: 0 <= j < |es| && KeyOf(es[j]) == key && es[j].containerIndex == m)
  {
    assert forall k :: 0 <= k < |xs| ==> xs[k] in xs;
    var indices := ContainerIndices(es, xs);
    var m := MaxOf(indices);
    var k :| 0 <= k < |indices| && indices[k] == m;
    assert xs[k] in xs;
    forall j | 0 <= j < |es| && KeyOf(es[j]) == key ensures es[j].containerIndex <= m {
      assert j in xs;
      var k' :| 0 <= k' < |xs| && xs[k'] == j;
      assert indices[k'] == es[j].containerIndex;
    }
  }

  /** `InputItemBindingModel`: the editor's numbering of one action sequence. */
  class InputItemBindingModel {
    /** The sequence's root action, as the editor walks it. */
    var root: ActionTree
    /** `_action_models`, `_index_lookup` and `_container_index_lookup`: entry i is the action numbered i. */
    var entries: seq<ActionEntry>
    /** `_child_lookup`, holding action numbers. */
    var childLookup: map<(Option<nat>, Option<string>), seq<nat>>

    /** What `_create_action_models` leaves. */
    ghost predicate Valid()
      reads this
    {
      && (forall i :: 0 <= i < |entries| ==> entries[i].index == i)
      && childLookup == Grouped(entries)
    }

    constructor(root: ActionTree)
      ensures this.root == root && Valid()
      ensures entries == Bfs(Start(root), 0)
    {
      this.root := root;
      entries := [];
      childLookup := map[];
      new;
      CreateActionModels();
    }

    /**
     * `_create_action_models`: numbers the actions breadth first from the
     * root, the children of each action in the order its `get_actions`
     * lists them, and files each under its parent and container.
     */
    method CreateActionModels()
      modifies this
      ensures root == old(root)
      ensures entries == Bfs(Start(root), 0)
      ensures childLookup == Grouped(entries)
      ensures Valid()
    {
      entries := [];
      childLookup := map[];
      var queue := Start(root);
      var count := 0;
      while |queue| > 0
        invariant root == old(root)
        invariant entries + Bfs(queue, count) == Bfs(Start(root), 0)
        invariant count == |entries|
        invariant childLookup == Grouped(entries)
        decreases QueueSize(queue)
      {
        ghost var q0 := queue;
        ghost var before := entries;
        QueueStep(queue, count);
        queue := NumberHead(queue, count);
        BfsAdvance(before, q0, count);
        count := count + 1;
      }
      BfsNumbers(Start(root), 0);
    }

    /** One turn of the outer loop of `_create_action_models`: numbers and files the head of the queue and queues its children. */
    method NumberHead(queue: seq<Pending>, count: nat) returns (rest: seq<Pending>)
      requires queue != [] && childLookup == Grouped(entries)
      modifies this
      ensures root == old(root)
      ensures entries == old(entries) + [Head(queue, count)]
      ensures childLookup == Grouped(entries)
      ensures rest == Next(queue, count)
    {
      var p := queue[0];
      var entry := ActionEntry(p.tree.action, count, p.parent, p.container, p.containerIndex);
      GroupedStep(entries, entry);
      var key := (entry.parent, entry.container);
      if key !in childLookup {
        childLookup := childLookup[key := []];
      }
      childLookup := childLookup[key := childLookup[key] + [count]];
      entries := entries + [entry];
      rest := QueueChildren(queue[1..], p.tree, count);
    }

    /** The inner loop of `_create_action_models`: queues the children with their container indices. */
    static method QueueChildren(queue: seq<Pending>, t: ActionTree, count: nat) returns (r: seq<Pending>)
      ensures r == queue + ChildItems(t, count)
    {
      r := queue;
      var children := t.children;
      ghost var numbers := ContainerNumbers(Names(children));
      ContainerNumbersRestart(Names(children));
      ChildItemsShape(t, count);
      var cIndex := 0;
      var i := 0;
      while i < |children|
        invariant 0 <= i <= |children|
        invariant r == queue + ChildItems(t, count)[..i]
        invariant i == 0 ==> cIndex == 0
        invariant i > 0 ==> cIndex == numbers[i - 1] + 1
      {
        if i > 0 && children[i].1 != children[i - 1].1 {
          cIndex := 0;
        }
        assert cIndex == numbers[i];
        r := r + [Pending(children[i].0, Some(children[i].1), Some(count), cIndex)];
        assert ChildItems(t, count)[..i + 1] == ChildItems(t, count)[..i] + [ChildItems(t, count)[i]];
        cIndex := cIndex + 1;
        i := i + 1;
      }
      assert ChildItems(t, count)[..i] == ChildItems(t, count);
    }

    /** `get_action_model_by_sidx`: GremlinError for a number no action has. */
    function ActionAt(sidx: int): (r: Result<ActionEntry>)
      reads this
      requires Valid()
      ensures r.Ok? <==> 0 <= sidx < |entries|
      ensures r.Ok? ==> r.value.index == sidx
      ensures r.Err? ==> r.fault == GremlinError
    {
      if 0 <= sidx < |entries| then Ok(entries[sidx]) else Err(GremlinError)
    }

    /**
     * `get_child_actions` with an action number: KeyError for a number no
     * action has, otherwise the numbers of its children in that container.
     */
    function ChildActions(parent: int, container: string): (r: Result<seq<nat>>)
      reads this
      requires Valid()
      ensures r.Ok? <==> 0 <= parent < |entries|
      ensures r.Err? ==> r.fault == KeyError
      ensures r.Ok? ==> forall x :: x in r.value <==>
                0 <= x < |entries| && entries[x].parent == Some(parent) && entries[x].container == Some(container)
    {
      if !(0 <= parent < |entries|) then Err(KeyError)
      else
        GroupedMembers(entries);
        var key := (Some(parent as nat), Some(container));
        Ok(if key in childLookup then childLookup[key] else [])
    }

    /**
     * `is_last_action_in_container`: whether no sibling in the same
     * container has a larger container index. The root has no parent
     * number to look siblings up by, and asking about it raises
     * AttributeError; a number no action has raises KeyError.
     */
    function IsLastInContainer(i: nat): (r: Result<bool>)
      reads this
      requires Valid()
      ensures i >= |entries| ==> r == Err(KeyError)
      ensures i < |entries| && entries[i].parent.None? ==> r == Err(AttributeError)
      ensures i < |entries| && entries[i].parent.Some? ==>
                r == Ok(forall j :: 0 <= j < |entries| && KeyOf(entries[j]) == KeyOf(entries[i]) ==>
                          entries[j].containerIndex <= entries[i].containerIndex)
    {
      if i >= |entries| then Err(KeyError)
      else if entries[i].parent.None? then Err(AttributeError)
      else
        var key := KeyOf(entries[i]);
        GroupedMembers(entries);
        var siblings := childLookup[key];
        assert i in siblings;
        assert forall x :: x in siblings ==> x < |entries| && KeyOf(entries[x]) == key;
        assert forall k :: 0 <= k < |siblings| ==> siblings[k] in siblings;
        var m := MaxOf(ContainerIndices(entries, siblings));
        SiblingMax(entries, siblings, key);
        var holds := entries[i].containerIndex >= m;
        Ok(holds)
    }
  }

  // ---------------------------------------------------------------------
  // The combo box model

  /** `LabelValueSelectionModel`: labels shown for values, and the selected position. */
  class LabelValueSelection {
    const labels: seq<string>
    const values: seq<string>
    var currentIndex: nat

    constructor(labels: seq<string>, values: seq<string>)
      requires |labels| == |values|
      ensures this.labels == labels && this.values == values && currentIndex == 0
    {
      this.labels := labels;
      this.values := values;
      currentIndex := 0;
    }

    /** The constructor's assertion: AssertionError when there are not as many labels as values. */
    static method Create(labels: seq<string>, values: seq<string>) returns (r: Result<LabelValueSelection>)
      ensures r.Err? <==> |labels| != |values|
      ensures r.Err? ==> r.fault == AssertionError
      ensures r.Ok? ==> r.value.labels == labels && r.value.values == values && r.value.currentIndex == 0
      ensures r.Ok? ==> fresh(r.value)
    {
      if |labels| != |values| {
        return Err(AssertionError);
      }
      var m := new LabelValueSelection(labels, values);
      return Ok(m);
    }

    /** `rowCount`: one row per label. */
    function RowCount(): (r: nat)
      ensures r == |labels|
    {
      |labels|
    }

    /** `currentValue` read; IndexError while there are no values. */
    function CurrentValue(): (r: Result<string>)
      reads this
      ensures r.Ok? <==> currentIndex < |values|
      ensures r.Ok? ==> r.value == values[currentIndex]
      ensures r.Err? ==> r.fault == IndexError
    {
      if currentIndex < |values| then Ok(values[currentIndex]) else Err(IndexError)
    }

    /**
     * `currentValue` write: a listed value selects its first position; an
     * unlisted one is only logged.
     */
    method SetCurrentValue(value: string)
      modifies this
      ensures value in values ==> currentIndex == FirstIndex(values, value)
      ensures value !in values ==> currentIndex == old(currentIndex)
      ensures value in values ==> CurrentValue() == Ok(value)
    {
      if value in values {
        var index := FirstIndex(values, value);
        if index != currentIndex {
          currentIndex := index;
        }
      }
    }
  }
}
