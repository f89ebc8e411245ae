# Joystick Gremlin core, modelled in Dafny

Joystick Gremlin maps physical joystick, keyboard and virtual ("intermediate
output") inputs to actions organised in profiles and modes. Most of the
program is Qt/QML glue, threads and XML input and output. This project
models the sequential logic underneath that glue, one Dafny module per
source file:

- `Spline` (gremlin/spline.py): the response curves. These are a
  piecewise-linear curve, a natural cubic spline (a tridiagonal solve), and a
  cubic Bézier spline evaluated through 101-entry lookup tables and a binary
  search. All are over `real`.
- `IntermediateOutputs` (gremlin/intermediate_output.py): the registry of
  virtual inputs. Its guid -> input and label -> guid dictionaries are kept
  in lock-step.
- `Profiles` (gremlin/profile.py):
  - the vJoy initial-value settings;
  - the action library with its deferred-parse worklist;
  - the per-device input-item table;
  - the keyboard input-id codec;
  - the mode hierarchy.
- `BaseClasses` (gremlin/base_classes.py):
  - the raw/current value pair;
  - the initial activation mode;
  - selector-indexed action containers;
  - the activation gate `_should_execute`.
- `EventHandling` (gremlin/event_handler.py):
  - event identity;
  - the nested callback tables and mode inheritance;
  - the paused filter;
  - the keyboard auto-repeat filter.
- `InputCache` (gremlin/input_cache.py):
  - the keyboard state;
  - the 1-based layout of a joystick's axes, buttons and hats;
  - the device cache.
- `ChainPlugin` and `ConditionPlugin` (action_plugins/chain/__init__.py and
  action_plugins/condition/__init__.py): the two action plugins with real
  logic.
- `ActionModels`, `ProfileModels` and `DeviceModels` (gremlin/ui/action_model.py,
  gremlin/ui/profile.py, gremlin/ui/device.py): the logic inside the editor's
  models.

Two further modules support the others:
- `PyCore` holds the Python semantics the code relies on:
  - exceptions, as values of a `Fault` datatype inside `Result` and `Outcome`;
  - negative list indices;
  - `list.insert` and `del`;
  - code-point string order.
- `GremlinTypes` holds the shared enumerations.

Objects whose fields the source updates in place are classes with
`modifies` clauses. Each of their methods is specified against a function
on the old state, and the properties are proved about those functions.

## Model

| member | source | states |
|---|---|---|
| Spline.SortByX | gremlin/spline.py:85-86 | the list `sorted(points, key=x)` produces is a permutation of the points (same multiset, same length) in ascending x order |
| Spline.InsertKeepsSorted | gremlin/spline.py:91-93 | putting a point after every point with an x not larger keeps an x-sorted list sorted |
| Spline.SortSorted | gremlin/spline.py:93 | sorting an already x-sorted list leaves it unchanged (the sort is stable) |
| Spline.AppendThenSort | gremlin/spline.py:92-93 | appending a point to a sorted list and sorting again equals inserting it after every point whose x is not larger |
| Spline.PiecewiseLinear.constructor | gremlin/spline.py:79-86 | the stored points are the given points sorted by x: sorted and a permutation of the input |
| Spline.PiecewiseLinear.AddControlPoint | gremlin/spline.py:91-93 | the point list grows by exactly the new point, stays sorted by x, and the new point lands after every point with an x not larger |
| Spline.PiecewiseLinear.Evaluate | gremlin/spline.py:95-115 | x is clamped into [-1, 1]; at or left of the first point the result is the first y, at or right of the last point the last y; in between the first pair with a.x <= x < b.x exists, and the result is the line through it and lies between a.y and b.y; with no points, IndexError |
| Spline.LerpBounds | gremlin/spline.py:111-115 | for a.x < b.x and x in [a.x, b.x] the interpolated value lies between a.y and b.y, and equals a.y at a.x and b.y at b.x |
| Spline.SweepRow | gremlin/spline.py:159-165 | a row whose pivot and right-hand side come from the forward sweep and whose z comes from back substitution satisfies the tridiagonal equation of the natural cubic spline |
| Spline.FirstRow | gremlin/spline.py:157-166 | the first inner row, with z[0] pinned to 0, satisfies its spline equation |
| Spline.PivotStaysPositive | gremlin/spline.py:159-160 | each pivot u[i] stays above the width h[i], so it is positive and the divisions by it are safe |
| Spline.RowSolved | gremlin/spline.py:153-166 | after the difference loop, the sweep and the back substitution, row i of the spline system holds |
| Spline.CubicThroughKnots | gremlin/spline.py:181-187 | each segment's cubic passes through its two knots (x[i], y[i]) and (x[i+1], y[i+1]) |
| Spline.CubicWithoutCurvature | gremlin/spline.py:181-187 | with z[i] == z[i+1] == 0 the segment's cubic is the straight line between its knots |
| Spline.CubicSpline.constructor | gremlin/spline.py:126-137 | x and y lists hold the points sorted by x, and every second derivative starts at 0 |
| Spline.CubicSpline.Differences | gremlin/spline.py:153-155 | fills h[i] with the widths and b[i] with the chord slopes, and succeeds exactly when x is strictly increasing (otherwise a zero width divides) |
| Spline.CubicSpline.Eliminate | gremlin/spline.py:157-161 | u[1] and v[1] are set from the first two intervals, every later u[i] and v[i] from the previous row, and every pivot stays above its width |
| Spline.CubicSpline.SweepStep | gremlin/spline.py:160-161 | row i of the forward sweep from row i - 1, with the pivot above its width and every other row unchanged |
| Spline.CubicSpline.BackSubstitute | gremlin/spline.py:163-166 | z[n] and z[0] are 0 and every inner z[i] is solved from v[i], h[i], z[i+1] and u[i] |
| Spline.CubicSpline.Fit | gremlin/spline.py:141-166 | fewer than three points change nothing; otherwise ZeroDivisionError exactly when x is not strictly increasing, with z untouched, and on success z[0] == z[n] == 0 and every inner row of the spline system holds |
| Spline.CubicSpline.Create | gremlin/spline.py:126-139 | the constructor as a whole: the points sorted by x, and for three or more points success exactly when the sorted x are strictly increasing, with natural boundary and every row solved |
| Spline.CubicSpline.FindSegment | gremlin/spline.py:174-179 | the chosen segment (ChosenSegment): the first with x[i] <= x <= x[i+1], or the last one (the loop variable's final value) when none holds x |
| Spline.ChosenSegmentUnique | gremlin/spline.py:174-179 | at most one segment is the chosen one for a given x |
| Spline.CubicSpline.Evaluate | gremlin/spline.py:168-187 | fewer than two points raise IndexError; otherwise the result is exactly that of the chosen segment (the first containing x, else the last): ZeroDivisionError when its width is 0, else its cubic at x (no clamping); for strictly increasing x it never fails and returns y[k] at every knot x[k] |
| Spline.ValueAtT | gremlin/spline.py:229-251 | the Bernstein form of the cubic Bézier curve: t = 0 gives the first control point, t = 1 the last |
| Spline.EveryThird | gremlin/spline.py:202 | `points[::3]`: element k is point 3k, and there are ceil(len / 3) of them |
| Spline.CubicBezierSpline.constructor | gremlin/spline.py:194-204 | the x and y lists split the points in order and the knots are every third point |
| Spline.CubicBezierSpline.GenerateLookup | gremlin/spline.py:207-227 | AssertionError, changing nothing, unless (len - 4) % 3 == 0; otherwise one table per segment is appended, each of 101 entries with entry j at t = j/100 and the curve point there |
| Spline.CubicBezierSpline.SegmentTable | gremlin/spline.py:222-227 | the inner loop: 101 samples of segment s at t = 0, 0.01, ..., 1 |
| Spline.CubicBezierSpline.Create | gremlin/spline.py:194-205 | construction fails with AssertionError exactly when (len - 4) % 3 != 0; otherwise every segment has its full table |
| Spline.CubicBezierSpline.SelectSegment | gremlin/spline.py:262-274 | segment 0 below the first knot, the last table at or beyond the last knot, otherwise the first segment whose end points enclose x (0 if none does), always a valid table index |
| Spline.CubicBezierSpline.SearchTable | gremlin/spline.py:277-289 | the binary search ends with hi == lo + 1; unless hi ran past the table, entries lo and hi bracket x; on an x-ordered table it runs past exactly when the last entry lies left of x |
| Spline.CubicBezierSpline.Evaluate | gremlin/spline.py:253-294 | x is clamped into [-1, 1], the segment is chosen as SelectSegment says, and the result is the line through the two bracketing table entries; IndexError with no tables or when the search runs past the table's end, ZeroDivisionError when the two entries share x |
| IntermediateOutputs.OfTypes | gremlin/intermediate_output.py:223-227 | the comprehension's filter: exactly the inputs whose type is listed, never more than there are |
| IntermediateOutputs.OfTypesCount | gremlin/intermediate_output.py:223-227 | filtering keeps each input's multiplicity when its type is listed and drops it otherwise |
| IntermediateOutputs.OfTypesPermutation | gremlin/intermediate_output.py:223-227 | filtering two orderings of the same inputs gives the same inputs |
| IntermediateOutputs.SortByKey | gremlin/intermediate_output.py:225 | `sorted(..., key=(type name, label))`: a permutation in ascending key order |
| IntermediateOutputs.InsertByKeySorted | gremlin/intermediate_output.py:225 | inserting after every element with a key not larger keeps a key-sorted list sorted |
| IntermediateOutputs.OfTypesSorted | gremlin/intermediate_output.py:223-227 | filtering a sorted list leaves it sorted |
| IntermediateOutputs.GeneratedLabelAsWritten | gremlin/intermediate_output.py:151-156 | the label `create` generates: "<Type> <first guid group>", with " - <time>" appended once when that is taken |
| IntermediateOutputs.GeneratedLabelCanCollide | gremlin/intermediate_output.py:151-156 | when both the plain and the suffixed label are taken, the generated label is one of them |
| IntermediateOutputs.GeneratedLabel | gremlin/intermediate_output.py:151-156 | the label with the recheck: returned only when free, and missing exactly when the label as written is taken |
| IntermediateOutputs.RegistryAppend | gremlin/intermediate_output.py:158-159 | adding an input with a fresh label and a fresh guid keeps the two dictionaries in lock-step |
| IntermediateOutputs.RegistryRename | gremlin/intermediate_output.py:181-184 | relabelling an input to a free label keeps the dictionaries in lock-step |
| IntermediateOutputs.RegistryRemove | gremlin/intermediate_output.py:192-194 | removing an input and its label keeps the dictionaries in lock-step, and no remaining input has its guid |
| IntermediateOutputs.LabelsCoverRegistry | gremlin/intermediate_output.py:205-227 | the labels of all axis, button and hat inputs are exactly the keys of `_label_lookup` |
| IntermediateOutputs.IntermediateOutput.constructor | gremlin/intermediate_output.py:113-115 | both dictionaries start empty and agree |
| IntermediateOutputs.IntermediateOutput.IdentifierToGuid | gremlin/intermediate_output.py:285-308 | a guid passes through; a label is looked up and, when missing, raises GremlinError; a found label belongs to an input with that guid |
| IntermediateOutputs.IntermediateOutput.Get | gremlin/intermediate_output.py:117-118 | the input registered under the guid or label; an unknown label raises GremlinError, an unknown guid KeyError |
| IntermediateOutputs.IntermediateOutput.InputsOfType | gremlin/intermediate_output.py:208-227 | the inputs of the listed types (all three when None), sorted by (type name, label), and no others |
| IntermediateOutputs.IntermediateOutput.LabelsOfType | gremlin/intermediate_output.py:196-206 | the labels of `inputs_of_type`, in its order |
| IntermediateOutputs.IntermediateOutput.AllLabelsRegistered | gremlin/intermediate_output.py:196-206 | `label in labels_of_type()` holds exactly when the label is registered |
| IntermediateOutputs.IntermediateOutput.InputByOffset | gremlin/intermediate_output.py:229-248 | an offset at or past the count raises GremlinError; an offset in range gives that element of the sorted inputs of the type; a negative offset within the count gives the element that many places from the end, as Python indexing does |
| IntermediateOutputs.IntermediateOutput.CountOfType | gremlin/intermediate_output.py:250-260 | `axis_count`, `button_count`, `hat_count`: the number of inputs of that type |
| IntermediateOutputs.IntermediateOutput.Create | gremlin/intermediate_output.py:120-159 | a taken label, a registered input id, or a generated label still taken after the time suffix raises GremlinError and changes nothing; a type other than axis, button or hat raises KeyError; it succeeds exactly when none of these applies, and then exactly one input is appended and its label maps to its guid, with the dictionaries still in lock-step |
| IntermediateOutputs.IntermediateOutput.Register | gremlin/intermediate_output.py:158-159 | the input is appended to `_inputs` and its label mapped to its guid, keeping the dictionaries in lock-step |
| IntermediateOutputs.IntermediateOutput.Reset | gremlin/intermediate_output.py:161-164 | both dictionaries are empty afterwards |
| IntermediateOutputs.IntermediateOutput.SetLabel | gremlin/intermediate_output.py:166-184 | equal labels change nothing; a missing old label or a taken new label raise GremlinError and change nothing; an existing old label and a free new label always succeed, and then the same input in the same place carries the new label, which alone maps to its guid, and the count is unchanged |
| IntermediateOutputs.IntermediateOutput.Delete | gremlin/intermediate_output.py:186-194 | succeeds exactly when the input is found; then it is removed from the list and its label from the lookup, and no remaining input has its guid; an unknown label raises GremlinError, an unknown guid KeyError |
| IntermediateOutputs.IntermediateOutput.Unregister | gremlin/intermediate_output.py:193-194 | removes the input at one position and its label, keeping the dictionaries in lock-step |
| Profiles.Settings.constructor | gremlin/profile.py:284-288 | a new settings object holds no initial values, so every axis reads 0.0 |
| Profiles.Settings.InitialAxisValue | gremlin/profile.py:284-288 | the stored value when both the vJoy id and the axis id are present, 0.0 otherwise |
| Profiles.Settings.SetInitialAxisValue | gremlin/profile.py:290-305 | the axis reads back the new value afterwards, every other (vjoy, axis) pair reads what it read before, and a missing vJoy table is created |
| Profiles.IdsOfMember | gremlin/profile.py:504-508 | an id is among the ids of a list of elements exactly when some element carries it |
| Profiles.ParsedStep | gremlin/profile.py:495-508 | parsing one more element whose references are present and whose id is new extends the record of what was parsed, in order, and where it is stored |
| Profiles.ParsedKeys | gremlin/profile.py:443-445 | every parsed element is stored under its id and all its references resolve in the library |
| Profiles.Library.constructor | gremlin/profile.py:316-322 | the library starts empty |
| Profiles.Library.AddAction | gremlin/profile.py:324-329 | the action is stored under its id, replacing any action already there, and can be got back |
| Profiles.Library.DeleteAction | gremlin/profile.py:331-342 | the key is gone afterwards; an absent key changes nothing |
| Profiles.Library.GetAction | gremlin/profile.py:410-423 | the stored action when the key is present, GremlinError otherwise |
| Profiles.Library.HasAction | gremlin/profile.py:425-433 | true exactly for the keys `get_action` returns an action for |
| Profiles.Library.RemoveUnused | gremlin/profile.py:344-375 | as written: with `recursive` it raises AttributeError before deleting anything; without it, the action's id is deleted, and an absent id raises KeyError |
| Profiles.Library.ParseXmlAction | gremlin/profile.py:495-508 | a duplicate id raises ProfileError and changes nothing; otherwise the element's action is stored under its id |
| Profiles.Library.FromXml | gremlin/profile.py:436-481 | an element missing an attribute or naming an unknown type raises ProfileError; on success every element was parsed once, each when its references were present, and is stored under its id with all references resolved; the loop stops with NonTermination only when some reference never appears, and a reference that is in neither the library nor the elements always ends in an error; when every element is well formed, their ids are distinct and new, and some order parses each after the ones it references, the call succeeds |
| Profiles.Library.ParseReady | gremlin/profile.py:466-467 | parses an element whose references are present and records it as the next one parsed, or raises ProfileError for a duplicate id; a new id always succeeds |
| Profiles.Library.Admit | gremlin/profile.py:448-469 | one element of the first loop: ProfileError for a missing attribute or an unknown type, otherwise the element is parsed or queued, and parsed plus queued elements are exactly the elements seen so far; a well-formed element with a new id is always admitted |
| Profiles.Library.ParseOrQueue | gremlin/profile.py:466-469 | an element is parsed when its references are present and appended to the queue otherwise; with a new id this never fails |
| Profiles.Library.FirstPass | gremlin/profile.py:448-469 | the first loop checks every element, and on success parsed plus queued elements are exactly the input elements; when every element is acceptable and no id is already stored or repeated, it succeeds and the queued ids are still fresh |
| Profiles.Library.Drain | gremlin/profile.py:475-481 | the queue is worked off first in, first out; on success every element has been parsed; a stop with NonTermination leaves an unresolved reference; with fresh queued ids and elements that have a parse order, it succeeds |
| Profiles.Library.DrainStep | gremlin/profile.py:476-481 | the front element is parsed when it can be and otherwise goes to the back; the queue shrinks or one more element counts as stalled; a front element with a new id never fails: it is parsed and dropped from the queue, or moved to the back with nothing stored |
| Profiles.ParseOrderProgress | gremlin/profile.py:472-481 | while elements wait and the elements have a parse order, some waiting element can be parsed now, so the second loop always finds work |
| Profiles.BlockedUnresolvable | gremlin/profile.py:472-481 | when every waiting element is blocked, no order of the elements parses each after its references, which is the only way the second loop can spin forever |
| Profiles.DocumentOrderResolvable | gremlin/profile.py:436-481 | elements whose references all point to earlier elements or to the library have a parse order, the order they are written in |
| Profiles.ParsedAll | gremlin/profile.py:436-481 | once every element is parsed, each is stored under its id with all references resolved, and the library's keys are the old keys plus the elements' ids |
| Profiles.FirstMatch | gremlin/profile.py:646-650 | the position of the first item matching (type, id, mode), or none when no item matches |
| Profiles.FirstMatchAppend | gremlin/profile.py:646-658 | appending an item leaves an existing first match where it was |
| Profiles.FirstMatchAppendNew | gremlin/profile.py:652-658 | with no match, an appended matching item becomes the first match |
| Profiles.CreatedItemIsFound | gremlin/profile.py:646-659 | the item `get_input_item` created is what a repeated call finds |
| Profiles.Profile.constructor | gremlin/profile.py:517-518 | a new profile has no input items |
| Profiles.Profile.FindItem | gremlin/profile.py:646-650 | the scan loop returns the first matching position, as FirstMatch describes |
| Profiles.Profile.GetInputCount | gremlin/profile.py:600-608 | the sequence count of the first matching item; 0 when the device or the item is absent |
| Profiles.Profile.GetInputItem | gremlin/profile.py:610-661 | a keyboard (tuple) id raises ProfileError; the first matching item is returned unchanged; when none matches, `create_if_missing` appends exactly one new item (creating the device list) and returns it, and otherwise None is returned with nothing changed |
| Profiles.KeyboardDecode | gremlin/profile.py:745-746 | `(id & 0xFF, id >> 8)`: a scan code in [0, 256) and a flag with flag * 256 + scan == id |
| Profiles.KeyboardEncode | gremlin/profile.py:765-766 | `ext << 8 \| scan` equals ext * 256 + scan for scan codes below 256 |
| Profiles.BitOrLowBits | gremlin/profile.py:766 | or-ing a value below 2^k into a multiple of 2^k adds it |
| Profiles.DecodeEncode | gremlin/profile.py:745-766 | decoding an encoded (scan, ext) with scan < 256 gives it back |
| Profiles.EncodeDecode | gremlin/profile.py:745-766 | encoding a decoded non-negative id gives the id back |
| Profiles.RootedAdd | gremlin/profile.py:981 | adding a top-level mode keeps every mode below the root |
| Profiles.RootedDelete | gremlin/profile.py:996-1000 | moving the deleted mode's children to its parent keeps every other mode below the root |
| Profiles.RootedRename | gremlin/profile.py:1033-1034 | renaming a mode to a fresh name keeps every mode, under its new name, below the root |
| Profiles.RootedNoSelfParent | gremlin/profile.py:994-1000 | in a tree no mode is its own parent |
| Profiles.WithoutModeIn | gremlin/profile.py:1005-1007 | the comprehension keeps exactly the items of other modes |
| Profiles.WithoutMode | gremlin/profile.py:1004-1007 | every device keeps its list minus the items of the deleted mode, and no device is added or lost |
| Profiles.RenameModeIn | gremlin/profile.py:1098-1107 | every item of the old mode now has the new mode, every other item is unchanged, and no list changes length |
| Profiles.ModeHierarchy.constructor | gremlin/profile.py:904-906 | a root named "" with the single child "Default" |
| Profiles.ModeHierarchy.FindMode | gremlin/profile.py:951-969 | the node carrying the name, the root included; GremlinError when there is none (names are unique in a valid tree) |
| Profiles.ModeHierarchy.ModeExists | gremlin/profile.py:1053-1062 | the root's name and the name of every mode in the tree exist, and no other name |
| Profiles.ModeHierarchy.IsDescendant | gremlin/profile.py:940-948 | only modes of the tree are descendants; a mode is a descendant of its parent, and a top-level mode of the root |
| Profiles.ModeHierarchy.ValidParents | gremlin/profile.py:935-949 | GremlinError for an unknown mode; otherwise all modes except the mode itself and its descendants, sorted |
| Profiles.ModeHierarchy.AddMode | gremlin/profile.py:971-981 | a name already in use raises GremlinError and changes nothing; otherwise a new top-level mode, and the tree stays a tree |
| Profiles.ModeHierarchy.DeleteMode | gremlin/profile.py:983-1007 | an unknown mode raises GremlinError and changes nothing; otherwise the children of a mode below the root move to its parent (the root itself, see Left out), every input item of the mode is removed, and the tree stays a tree |
| Profiles.ModeHierarchy.RenameMode | gremlin/profile.py:1009-1038 | equal names change nothing; an unknown old name or a taken new name raise GremlinError and change nothing; otherwise the node and its children's parent link take the new name and every input item of the old mode moves to the new one |
| BaseClasses.Value.constructor | gremlin/base_classes.py:55-62 | a new value's current value starts equal to its raw value |
| BaseClasses.Value.SetCurrent | gremlin/base_classes.py:82-89 | the setter replaces the current value and leaves the raw value as it was |
| BaseClasses.LastActivation | gremlin/base_classes.py:106-116 | the mode is the one chosen by the last activation property in the class's property list, Deactivated when there is none |
| BaseClasses.SkipInactive | gremlin/base_classes.py:107-116 | a trailing property that is not an activation property leaves the mode chosen by the ones before it |
| BaseClasses.InitialActivation | gremlin/base_classes.py:106-116 | the constructor's loop over the properties ends with the mode of the last activation property (Deactivated when none) |
| BaseClasses.Gathered | gremlin/base_classes.py:292-296 | gathering all containers in selector order gives two lists of the same length, each child paired with a listed selector whose container holds it, and as many children as the containers hold in total |
| BaseClasses.ActionData.constructor | gremlin/base_classes.py:96-116 | a new action has the given id and selectors, empty containers, and the initial activation mode of its properties |
| BaseClasses.ActionData.ValidateSelector | gremlin/base_classes.py:439-444 | a selector passes exactly when it is listed, or it is None and None is allowed; otherwise GremlinError |
| BaseClasses.ActionData.GetActions | gremlin/base_classes.py:288-300 | an unlisted selector raises GremlinError; None returns every container in selector order with the parallel selector list; a listed selector returns its container with that selector repeated once per child |
| BaseClasses.ActionData.InsertAction | gremlin/base_classes.py:324-338 | an unlisted or None selector raises GremlinError and an anchor outside [0, len] raises AttributeError, both changing nothing; otherwise the child is inserted at the front or end without an anchor, at the anchor or one past it with one, and every other container is unchanged |
| BaseClasses.ActionData.RemoveAction | gremlin/base_classes.py:340-356 | succeeds exactly for a listed selector and an index in [0, len), removing that one child and keeping every other child and container; a None selector passes validation, then raises GremlinError for a negative index (the chained comparison stops before `len`) and TypeError on the missing container otherwise; any other failure is GremlinError; a failure changes nothing |
| BaseClasses.InsertKeepsOthers | gremlin/base_classes.py:338 | `list.insert` at any offset adds exactly the new child and keeps the others in their order on either side of it |
| BaseClasses.RemoveEntry | gremlin/base_classes.py:453-454 | an absent value leaves the list as it was; a present one loses exactly its first occurrence, the elements before and after it keeping their order |
| BaseClasses.InsertEntry | gremlin/base_classes.py:471-474 | an absent anchor leaves the list as it was; otherwise the value is inserted directly after (append) or directly before the first occurrence of the anchor and nothing else moves |
| BaseClasses.InsertNextTo | gremlin/base_classes.py:472-474 | inserting at position k or k + 1 puts the value right before or right after element k, one longer, the same elements plus the value |
| BaseClasses.ShouldExecute | gremlin/base_classes.py:522-535 | Both always runs, Deactivated never, Press on a truthy value, Release on a falsy one, and any other mode raises GremlinError |
| BaseClasses.PressReleaseComplement | gremlin/base_classes.py:527-530 | for every value exactly one of Press and Release runs the action, Both runs and Deactivated does not |
| EventHandling.HashKey | gremlin/event_handler.py:113-137 | the hashed tuple is (device, type, identifier, flag) with flag 1 exactly for a keyboard event whose key is extended and 0 otherwise; a keyboard event whose identifier is not a pair raises TypeError |
| EventHandling.NotEqual | gremlin/event_handler.py:110-111 | `!=` raises exactly when `==` does and otherwise is its negation |
| EventHandling.EqualIffSameInput | gremlin/event_handler.py:107-119 | two hashable events are equal exactly when they share device, type and identifier |
| EventHandling.EqualIgnoresState | gremlin/event_handler.py:116-119 | changing an event's mode, value, pressed state or raw value changes neither its hash key nor its equality with the original |
| EventHandling.Clone | gremlin/event_handler.py:91-105 | the clone carries every field of the original |
| EventHandling.CloneIsEqual | gremlin/event_handler.py:91-108 | a clone hashes like its original and so is equal to it, or raises TypeError exactly when the original does |
| EventHandling.AppendedLookup | gremlin/event_handler.py:442-450 | after an append the three levels exist, the event's list is the old one plus the callback, every other (device, mode, event) looks up as before, and only the device is added to the device keys |
| EventHandling.WithLevelsLookup | gremlin/event_handler.py:442-445 | creating empty device and mode levels changes no lookup |
| EventHandling.AlwaysExecuted | gremlin/event_handler.py:536-537 | the paused filter keeps exactly the always-execute callbacks, each as often as it was registered, and nothing longer than the input |
| EventHandling.InheritMissing | gremlin/event_handler.py:472-476 | the child keeps every event it has and gains the parent's list for each event it lacks; its keys are the union of both |
| EventHandling.InheritMissingUnique | gremlin/event_handler.py:474-476 | any table with the child's entries plus the parent's where the child has none is the merged table |
| EventHandling.InheritChildren | gremlin/event_handler.py:466-476 | processing the children of a mode never changes that mode's own table |
| EventHandling.InheritMode | gremlin/event_handler.py:463-476 | processing one mode keeps the set of devices |
| EventHandling.InheritAll | gremlin/event_handler.py:461-476 | processing every mode keeps the set of devices |
| EventHandling.InheritChildrenKeeps | gremlin/event_handler.py:474-476 | passing callbacks to children never replaces an entry a mode already had |
| EventHandling.InheritChildrenCovers | gremlin/event_handler.py:471-476 | after a mode passes its callbacks down, every listed child has an entry for every event of the parent |
| EventHandling.InheritChildrenCopies | gremlin/event_handler.py:471-476 | a child lacking an event of its parent receives exactly the parent's callbacks for it |
| EventHandling.InheritAllKeeps | gremlin/event_handler.py:452-476 | `build_event_lookup` leaves every callback list that was already registered unchanged: a child's own handlers override its parent's |
| EventHandling.InheritModeCopies | gremlin/event_handler.py:463-476 | on a device with callbacks in a mode, a child lacking an event inherits the parent's list for it |
| EventHandling.AppendOnLevels | gremlin/event_handler.py:446-450 | appending to the event's list once the two outer levels exist gives the same table as the one-step append |
| EventHandling.EventHandler.constructor | gremlin/event_handler.py:409-415 | a new handler processes callbacks and has none |
| EventHandling.EventHandler.AddCallback | gremlin/event_handler.py:442-450 | creates the missing levels and appends the callback after those already registered for that device, mode and event; an unhashable keyboard event raises TypeError leaving only the two new levels behind |
| EventHandling.EventHandler.AddLevels | gremlin/event_handler.py:442-445 | the device and mode levels exist afterwards and no lookup changes |
| EventHandling.EventHandler.AppendToEvent | gremlin/event_handler.py:446-450 | the event's list becomes its old contents (empty if absent) followed by the callback, nothing else changing |
| EventHandling.EventHandler.BuildEventLookup | gremlin/event_handler.py:452-476 | the loops leave the table that InheritAll describes, whose properties InheritAllKeeps and InheritModeCopies state |
| EventHandling.InheritDevices | gremlin/event_handler.py:463-476 | the loop over devices computes InheritMode for one mode |
| EventHandling.InheritInto | gremlin/event_handler.py:467-476 | the loop over children computes InheritChildren for one device |
| EventHandling.CopyMissing | gremlin/event_handler.py:472-476 | the loop over the parent's events computes InheritMissing |
| EventHandling.EventHandler.Resume | gremlin/event_handler.py:478-481 | callbacks are processed afterwards; the tables are unchanged |
| EventHandling.EventHandler.Pause | gremlin/event_handler.py:483-486 | callbacks are not processed afterwards; the tables are unchanged |
| EventHandling.EventHandler.ToggleActive | gremlin/event_handler.py:488-491 | the flag is negated; the tables are unchanged |
| EventHandling.EventHandler.Clear | gremlin/event_handler.py:493-495 | afterwards every lookup yields no callback and the flag is unchanged |
| EventHandling.EventHandler.MatchingCallbacks | gremlin/event_handler.py:526-539 | while active the registered list for device, mode and event, while paused exactly its always-execute members, in order and with repeats; an unknown device gives the empty list without hashing, and an unhashable keyboard event of a known device raises TypeError |
| EventHandling.EventListener.constructor | gremlin/event_handler.py:190-191 | the listener holds the given keyboard state and keyboard device id |
| EventHandling.EventListener.KeyboardHandler | gremlin/event_handler.py:314-333 | a press of a key already held is a repeat: nothing is recorded or emitted; otherwise the key state is updated and a keyboard event for that key in the current mode is emitted; the OS event always propagates and the key's recorded state equals the new one |
| InputCache.Keyboard.constructor | gremlin/input_cache.py:319-321 | a new keyboard cache records no key |
| InputCache.Keyboard.Update | gremlin/input_cache.py:323-330 | the key's recorded state becomes the reported one and no other key's state changes |
| InputCache.Keyboard.IsPressed | gremlin/input_cache.py:332-343 | a key never reported reads as released; otherwise its last recorded state |
| InputCache.CachedInput.constructor | gremlin/input_cache.py:39-48 | a new input belongs to the given device, has the given index and holds no value yet |
| InputCache.CachedInput.Update | gremlin/input_cache.py:50-56 | the next read of the input returns the value just stored |
| InputCache.JoystickWrapper.constructor | gremlin/input_cache.py:94-110 | a wrapper built from the driver's report has one axis per reported AxisNames index and buttons and hats numbered 1 to their counts, all of this device |
| InputCache.JoystickWrapper.Create | gremlin/input_cache.py:100-110 | a device the driver does not know raises GremlinError; a known one gives a consistent wrapper of that device with the driver's report |
| InputCache.JoystickWrapper.InitAxes | gremlin/input_cache.py:241-252 | the axes are keyed exactly by the AxisNames indices in the axis map, each input carrying its key as index |
| InputCache.JoystickWrapper.InitNumbered | gremlin/input_cache.py:254-274 | slot 0 is empty and slot i holds input number i of the device, for i from 1 to the count |
| InputCache.JoystickWrapper.Axis | gremlin/input_cache.py:163-178 | succeeds exactly for an AxisNames index the device has, returning that axis; otherwise GremlinError |
| InputCache.JoystickWrapper.AxisCount | gremlin/input_cache.py:214-221 | the number of axes is the length of the driver's axis map |
| InputCache.JoystickWrapper.Button | gremlin/input_cache.py:180-195 | succeeds exactly for 1 <= index <= button count, returning button number index; otherwise GremlinError |
| InputCache.JoystickWrapper.Hat | gremlin/input_cache.py:197-212 | succeeds exactly for 1 <= index <= hat count, returning hat number index; otherwise GremlinError |
| InputCache.JoystickWrapper.IsAxisValid | gremlin/input_cache.py:130-145 | true exactly when some axis of the device carries the AxisNames index |
| InputCache.JoystickWrapper.AxisReverseLookup | gremlin/input_cache.py:147-161 | one plus the position of the first axis with that index, and GremlinError exactly when no axis has it |
| InputCache.Joystick.constructor | gremlin/input_cache.py:282-283 | the device cache starts empty |
| InputCache.Joystick.Get | gremlin/input_cache.py:285-311 | a cached device is returned unchanged; otherwise the intermediate output id gets the given intermediate output registry (the singleton), a device the driver knows a new wrapper, both cached, and any other id raises GremlinError without caching |
| ChainPlugin.ShowNat | action_plugins/chain/__init__.py:187 | `str(i)` of a non-negative index is a non-empty string of decimal digits with no leading zero unless the index is 0 |
| ChainPlugin.ParseInt | action_plugins/chain/__init__.py:190 | `int(s)` ignores surrounding white space, takes one optional sign, and allows single underscores between digits; it succeeds exactly when what remains after the sign is such a numeral (a plain digit string gives its digits' value), and any other text raises ValueError; the signed value is stated by ParseIntOfParts |
| ChainPlugin.DigitsAreNumeral | action_plugins/chain/__init__.py:190 | a digit string has no white space to strip and no sign, and is a numeral `int()` accepts |
| ChainPlugin.ParseIntSigned | action_plugins/chain/__init__.py:190 | for every numeral, `int` of '-' followed by it is minus its value and `int` of '+' followed by it is its value |
| ChainPlugin.ParseIntSpaced | action_plugins/chain/__init__.py:190 | a white-space character on each side of any text leaves what `int` makes of it, value or ValueError, unchanged |
| ChainPlugin.ParseIntSameStrip | action_plugins/chain/__init__.py:190 | texts that strip to the same text give the same `int` result |
| ChainPlugin.ParseIntOfParts | action_plugins/chain/__init__.py:190 | when the stripped text is a sign and a numeral, the result is the numeral's value, negated exactly when the sign is '-' |
| ChainPlugin.ParseIntUnderscore | action_plugins/chain/__init__.py:190 | an underscore between two numerals is accepted and skipped: the result is the value of the digits joined |
| ChainPlugin.UnderscoreSkipped | action_plugins/chain/__init__.py:190 | the digit value with an underscore between two parts equals the value of the parts joined |
| ChainPlugin.ParseIntRefusesDoubleUnderscore | action_plugins/chain/__init__.py:190 | any text with two underscores in a row raises ValueError |
| ChainPlugin.ParseIntRefusesSpacedSign | action_plugins/chain/__init__.py:190 | any text where white space follows the sign raises ValueError |
| ChainPlugin.ParseShowNat | action_plugins/chain/__init__.py:187-190 | the value of the digits `str` produces is the number again |
| ChainPlugin.SelectorRoundTrip | action_plugins/chain/__init__.py:187-190 | `int(str(i)) == i`, so every selector names its own sequence and distinct sequences have distinct selectors |
| ChainPlugin.SortedInts | action_plugins/chain/__init__.py:169 | `sorted(keys)` holds exactly the keys, each once |
| ChainPlugin.SortedIntsAscending | action_plugins/chain/__init__.py:169 | the sorted keys are strictly ascending |
| ChainPlugin.ChainDict | action_plugins/chain/__init__.py:162-167 | after the parse loop the dictionary's keys are exactly the N of the chain-N elements |
| ChainPlugin.ChainDictLastWins | action_plugins/chain/__init__.py:164-167 | when several chain-N elements share N, the one last in document order supplies the actions |
| ChainPlugin.InKeyOrder | action_plugins/chain/__init__.py:168-170 | the sequences are the dictionary's values, one per key, in ascending key order |
| ChainPlugin.Resolve | action_plugins/chain/__init__.py:167 | every id resolves to the library's action for it, and GremlinError is raised exactly when some id is unknown |
| ChainPlugin.Parsed | action_plugins/chain/__init__.py:164-167 | each chain-N element becomes N paired with its resolved actions, in document order |
| ChainPlugin.ChainData.constructor | action_plugins/chain/__init__.py:142-157 | a new chain has one empty sequence, no timeout, and the Disallowed activation mode its single ActivateDisabled property selects |
| ChainPlugin.ChainData.ValidSelectors | action_plugins/chain/__init__.py:186-187 | one selector per sequence, and selector i reads back as i |
| ChainPlugin.ChainData.GetContainer | action_plugins/chain/__init__.py:189-193 | a selector `int` cannot read raises ValueError, a number outside [0, n) raises GremlinError, and any other returns that sequence |
| ChainPlugin.ChainData.SelectorsResolve | action_plugins/chain/__init__.py:186-193 | each valid selector returns its own sequence |
| ChainPlugin.ChainData.FromParsed | action_plugins/chain/__init__.py:159-170 | the timeout is read first; an unknown action id raises GremlinError leaving the sequences as they were; otherwise the sequences are the parsed elements' actions in ascending N, the last element for each N winning |
| ChainPlugin.InOrder | action_plugins/chain/__init__.py:168-170 | the loop over the sorted keys produces the sequences in ascending key order |
| ChainPlugin.ParsedStep | action_plugins/chain/__init__.py:164-167 | parsing one more element maps its N to its actions and keeps every other key |
| ChainPlugin.ChainFunctor.constructor | action_plugins/chain/__init__.py:44-48 | a new functor starts at sequence 0 with no previous call, its functors one per sequence |
| ChainPlugin.ChainFunctor.Call | action_plugins/chain/__init__.py:61-71 | with a positive timeout that has run out the chain restarts at 0 and the call time is recorded; the current sequence's functors run; a truthy value moves to the next sequence modulo the current sequence count; an index without functors raises KeyError and an emptied chain ZeroDivisionError; a chain unchanged since the functor was built stays in range |
| ChainPlugin.ChainModel.constructor | action_plugins/chain/__init__.py:79-87 | the model edits the given chain data |
| ChainPlugin.ChainModel.ChainCount | action_plugins/chain/__init__.py:97-99 | the number of sequences of the chain |
| ChainPlugin.ChainModel.AddSequence | action_plugins/chain/__init__.py:101-104 | one more, empty, sequence at the end; the timeout is unchanged |
| ChainPlugin.ChainModel.RemoveSequence | action_plugins/chain/__init__.py:106-113 | GremlinError exactly for an index outside [0, n), changing nothing; otherwise exactly that sequence is removed |
| ChainPlugin.ChainModel.SetTimeout | action_plugins/chain/__init__.py:118-121 | the timeout becomes the value and the sequences are unchanged |
| ConditionPlugin.Comparator.constructor | action_plugins/condition/__init__.py:158-161 | a new default comparator is of the requested class |
| ConditionPlugin.ComparatorFor | action_plugins/condition/__init__.py:146-157 | an axis needs a range comparator, a button or a key a pressed one, a hat a direction one, and a mouse input has no entry (KeyError) |
| ConditionPlugin.KeySet | action_plugins/condition/__init__.py:169 | `set(inputs)` holds exactly the hash keys of the inputs, and raises TypeError exactly when one of them cannot be hashed |
| ConditionPlugin.KeySetMonotone | action_plugins/condition/__init__.py:169 | a list whose inputs all occur in another cannot fail where the other succeeds, and its set is contained in the other's |
| ConditionPlugin.KeySetIgnoresOrder | action_plugins/condition/__init__.py:169-170 | two lists with the same inputs, in any order and with any repeats, compare as the same set, so reordering the inputs never replaces them |
| ConditionPlugin.MixedTypesIffTwoTypes | action_plugins/condition/__init__.py:273-274 | `len(set(input_types)) > 1` holds exactly when two of the inputs have different types |
| ConditionPlugin.Condition.constructor | action_plugins/condition/__init__.py:62-71 | a new condition has its subclass's condition type, no comparator and no inputs, so it is not yet valid |
| ConditionPlugin.Condition.IsValid | action_plugins/condition/__init__.py:104-112 | valid exactly when the condition has a type, a comparator and at least one input; a new condition is not valid |
| ConditionPlugin.Condition.CreateComparator | action_plugins/condition/__init__.py:140-162 | the comparator afterwards is of the class the input type needs; one already of that class is kept, otherwise a new one replaces it; a mouse input raises KeyError and changes nothing |
| ConditionPlugin.Condition.UpdateInputs | action_plugins/condition/__init__.py:168-171 | the inputs are replaced exactly when the new list holds a different set of inputs; an unhashable event raises TypeError and changes nothing |
| ConditionPlugin.Condition.UpdateKeyboardInputs | action_plugins/condition/__init__.py:269-294 | mixed types or a non-keyboard input raise GremlinError and an empty list IndexError, all changing nothing; otherwise the comparator is a pressed one (the old one if it was) and the inputs are updated as `_update_inputs` does; success implies a non-empty all-keyboard list |
| ConditionPlugin.Condition.UpdateJoystickInputs | action_plugins/condition/__init__.py:365-382 | mixed types raise GremlinError changing nothing; an empty list clears the comparator; otherwise the first input's type picks the comparator (KeyError for a mouse, changing nothing); then the inputs are updated as `_update_inputs` does |
| ConditionPlugin.Condition.SetInputType | action_plugins/condition/__init__.py:413-414 | the comparator afterwards is of the class the input type needs, KeyError for a mouse input; the inputs and condition type are unchanged |
| ConditionPlugin.Condition.SetConditionType | action_plugins/condition/__init__.py:123-133 | a current-input condition takes the new condition type; keyboard and joystick conditions keep theirs |
| ConditionPlugin.TruthState | action_plugins/condition/__init__.py:445-453 | All holds when every verdict does (also for no conditions), Any when some verdict does (not for no conditions), and any other operator raises AttributeError |
| ConditionPlugin.ConditionData.constructor | action_plugins/condition/__init__.py:587-603 | a new condition action combines with All, has no actions and no conditions, and runs on press and release (Both) |
| ConditionPlugin.ConditionData.GetContainer | action_plugins/condition/__init__.py:655-662 | "true" names the true branch, "false" the false branch, and any other selector returns None |
| ConditionPlugin.ConditionData.ValidSelectors | action_plugins/condition/__init__.py:655-656 | the two selectors "true" and "false" |
| ConditionPlugin.ConditionFunctor.constructor | action_plugins/condition/__init__.py:424-425 | the functor holds the data and one functor list per branch |
| ConditionPlugin.ConditionFunctor.Call | action_plugins/condition/__init__.py:427-434 | nothing runs unless the activation gate allows it (GremlinError for Disallowed); then the true branch runs if the conditions hold under the operator and the false branch otherwise, an unknown operator raising AttributeError |
| ConditionPlugin.ConditionFunctor.DefaultRunsTrueBranchIffAll | action_plugins/condition/__init__.py:427-447 | with the default activation and operator, the true branch runs exactly when every condition holds, on press and on release alike |
| ConditionPlugin.ConditionModel.constructor | action_plugins/condition/__init__.py:462-470 | the model edits the given condition data |
| ConditionPlugin.ConditionModel.AddCondition | action_plugins/condition/__init__.py:478-498 | a new condition of the given type without inputs is appended; a current-input one first gets the comparator for the action's behavior type, and for a mouse behavior KeyError leaves the list unchanged |
| ConditionPlugin.ConditionModel.RemoveCondition | action_plugins/condition/__init__.py:529-534 | an index at or past the end raises GremlinError; any smaller index is deleted as `del` does, counting a negative index from the end (IndexError below minus the count) |
| ActionModels.ActivationToTuple | gremlin/ui/action_model.py:255-265 | the press flag is set exactly for Both and Press, the release flag exactly for Both and Release |
| ActionModels.TupleToActivation | gremlin/ui/action_model.py:267-281 | no pair gives Disallowed; neither flag gives Deactivated and both flags Both |
| ActionModels.ActivationRoundTrip | gremlin/ui/action_model.py:255-281 | every mode but Disallowed survives the trip to the pair and back |
| ActionModels.TupleRoundTrip | gremlin/ui/action_model.py:255-281 | every pair survives the trip to the mode and back |
| ActionModels.DisallowedDoesNotRoundTrip | gremlin/ui/action_model.py:255-281 | Disallowed reads as neither flag, so writing it back gives Deactivated |
| ActionModels.TupleMatchesExecution | gremlin/ui/action_model.py:255-265 | the flags shown are when the action runs: the press flag for a truthy value and the release flag for a falsy one |
| ActionModels.DropAction | gremlin/ui/action_model.py:182-199 | dropping an action on itself only resyncs; otherwise it moves the source to the target, after it for "append" and into the named container for any other method |
| ActionModels.ReloadsInputItem | gremlin/ui/action_model.py:192-202 | the input item is reloaded exactly after a move onto the root |
| ActionModels.ActionModel.constructor | gremlin/ui/action_model.py:81-94 | the model edits the given action data |
| ActionModels.ActionModel.CanChangeActivation | gremlin/ui/action_model.py:147-149 | the activation can be changed exactly when the action's mode is not Disallowed |
| ActionModels.ActionModel.ActivateOnPress | gremlin/ui/action_model.py:239-240 | the press box is ticked exactly for the modes Both and Press |
| ActionModels.ActionModel.ActivateOnRelease | gremlin/ui/action_model.py:247-248 | the release box is ticked exactly for the modes Both and Release |
| ActionModels.ActionModel.SetActivateOnPress | gremlin/ui/action_model.py:239-245 | the press flag reads back as written, the release flag is unchanged, an unchanged flag leaves the mode as it was, and the containers are untouched |
| ActionModels.ActionModel.SetActivateOnRelease | gremlin/ui/action_model.py:247-253 | the release flag reads back as written, the press flag is unchanged, an unchanged flag leaves the mode as it was, and the containers are untouched |
| ActionModels.WithPress | gremlin/ui/action_model.py:239-245 | writing the press flag reads back as written and keeps the release flag; writing the flag already shown changes no mode but Disallowed |
| ActionModels.WithRelease | gremlin/ui/action_model.py:247-253 | writing the release flag reads back as written and keeps the press flag; writing the flag already shown changes no mode but Disallowed |
| ActionModels.SettersCommute | gremlin/ui/action_model.py:239-253 | setting the two check boxes in either order gives the same mode |
| ActionModels.DisallowedBecomesPress | gremlin/ui/action_model.py:239-253 | ticking a box on a Disallowed action makes it run on press or release, while clearing one leaves it Disallowed |
| ProfileModels.VirtualButton.Axis | gremlin/profile.py:108-118 | an axis button holds the given lower and upper limits and lists no hat direction |
| ProfileModels.VirtualButton.Hat | gremlin/profile.py:146-155 | a hat button lists each given direction exactly once and no other direction, so it starts duplicate-free |
| ProfileModels.Deduplicated | gremlin/profile.py:155 | `list(set(s))`: a duplicate-free list holding exactly the values of `s` |
| ProfileModels.DeleteAt | gremlin/ui/profile.py:107-109 | deleting position k leaves one element fewer, the elements before k in place, the ones after shifted down by one, and the same elements minus the deleted one |
| ProfileModels.DeleteAtMembers | gremlin/ui/profile.py:107-109 | deleting position k keeps every other value, and keeps a duplicate-free list duplicate-free without the deleted value |
| ProfileModels.ToggledDirections | gremlin/ui/profile.py:101-110 | activating lists the direction; deactivating a duplicate-free list unlists it; no other direction changes membership; a duplicate-free list stays so; writing the state already shown changes nothing |
| ProfileModels.VirtualButtonModel.constructor | gremlin/ui/profile.py:58-71 | the model edits the given virtual button |
| ProfileModels.VirtualButtonModel.SetLowerLimit | gremlin/ui/profile.py:76-79 | a value other than the stored one is stored clamped to [-1, 1]; writing the stored value changes nothing (the new limit is LimitWrite of the old one); the upper limit and directions are unchanged |
| ProfileModels.VirtualButtonModel.SetUpperLimit | gremlin/ui/profile.py:84-87 | a value other than the stored one is stored clamped to [-1, 1]; writing the stored value changes nothing (the new limit is LimitWrite of the old one); the lower limit and directions are unchanged |
| ProfileModels.VirtualButtonModel.SetHatState | gremlin/ui/profile.py:101-110 | the directions become the toggled list and the limits are unchanged |
| ProfileModels.VirtualButtonModel.HatState | gremlin/ui/profile.py:98-99 | a direction's box is ticked exactly when the button lists it |
| ProfileModels.LimitWrite | gremlin/ui/profile.py:76-87 | writing the stored limit keeps it; any other value leaves a limit in [-1, 1], and a value already in range is stored as given |
| ProfileModels.LimitsStayInRange | gremlin/ui/profile.py:76-87 | a limit that starts in [-1, 1] stays there through any run of writes |
| ProfileModels.LastWriteInRangeWins | gremlin/ui/profile.py:76-87 | after any run of writes, a final write of an in-range value other than the current limit stores exactly that value |
| ProfileModels.HatDirectionModel.constructor | gremlin/ui/profile.py:188-195 | the model holds the given directions |
| ProfileModels.HatDirectionModel.SetHatState | gremlin/ui/profile.py:200-209 | the directions become the toggled list, and for a duplicate-free list the direction reads back as written |
| ProfileModels.HatDirectionModel.HatState | gremlin/ui/profile.py:197-198 | a direction's box is ticked exactly when the list holds it |
| ProfileModels.TogglesKeepDistinct | gremlin/ui/profile.py:200-209 | any run of check box writes keeps a duplicate-free direction list duplicate-free |
| ProfileModels.TakenOut | gremlin/ui/profile.py:706-708 | taking the source out of a list of distinct sequences keeps every other one, leaves the list distinct, and loses exactly the source |
| ProfileModels.MovedAfterPermutes | gremlin/ui/profile.py:699-712 | with the source and the target both present, the drop only reorders the sequences |
| ProfileModels.MovedAfterAdjacent | gremlin/ui/profile.py:709-712 | with the source and the target both present, the source lands right after the target |
| ProfileModels.MovedAfterLosesSource | gremlin/ui/profile.py:706-712 | when no sequence has the target's id the dropped sequence is removed and not put back |
| ProfileModels.InputItemModel.constructor | gremlin/ui/profile.py:630-647 | the model shows the given action sequences |
| ProfileModels.InputItemModel.RowCount | gremlin/ui/profile.py:716-717 | one row per action sequence of the input |
| ProfileModels.InputItemModel.DropAction | gremlin/ui/profile.py:699-714 | dropping a sequence on itself changes nothing; otherwise, for distinct sequences, the source is moved right after the target (or dropped when there is no target) |
| ProfileModels.InputItemModel.PopSource | gremlin/ui/profile.py:705-708 | the first loop finds the source exactly when it is present, and for distinct sequences removes exactly it |
| ProfileModels.InputItemModel.InsertAfterTarget | gremlin/ui/profile.py:709-712 | the second loop inserts the entry right after the target and changes nothing when there is no target |
| ProfileModels.AfterFirstNotEqual | gremlin/ui/profile.py:710-712 | in a list of distinct sequences nothing after the target's position is the target, so the insertion loop inserts once |
| ProfileModels.QueueSizeAppend | gremlin/ui/profile.py:302-331 | the actions pending in two queues add up |
| ProfileModels.Names | gremlin/ui/profile.py:320 | the container name of each child, in order |
| ProfileModels.ContainerNumbers | gremlin/ui/profile.py:321-329 | one container index per child |
| ProfileModels.ContainerNumbersRestart | gremlin/ui/profile.py:321-329 | the first child gets 0, and each later one one more than its predecessor when they share a container and 0 otherwise |
| ProfileModels.ContainerNumbersAreRunOffsets | gremlin/ui/profile.py:321-329 | a child's container index is its offset in the run of consecutive children with its container, so it is its position in the container when `get_actions` lists each container together |
| ProfileModels.ChildItems | gremlin/ui/profile.py:320-329 | one queue entry per child |
| ProfileModels.ChildItemsShape | gremlin/ui/profile.py:322-329 | child i is queued with its own action and container, its parent's number and its container index |
| ProfileModels.QueueSizeOfChildren | gremlin/ui/profile.py:320-329 | the queued children hold exactly the actions under the parent |
| ProfileModels.QueueStep | gremlin/ui/profile.py:302-331 | each turn of the loop leaves one action fewer to number, so the loop ends |
| ProfileModels.BfsAdvance | gremlin/ui/profile.py:302-331 | numbering the head of the queue moves one entry from the pending numbering to the numbered ones |
| ProfileModels.BfsNumbers | gremlin/ui/profile.py:302-331 | every action in the queue gets one entry, numbered consecutively from the current count |
| ProfileModels.BfsParents | gremlin/ui/profile.py:302-331 | only the first entry may lack a parent, and every parent is numbered before its children |
| ProfileModels.ParentsEarlierCons | gremlin/ui/profile.py:309 | putting an entry whose parent is numbered earlier in front keeps parents before children |
| ProfileModels.NextQueueParents | gremlin/ui/profile.py:322-324 | after a turn every queued action has a parent numbered before the next number |
| ProfileModels.Layout | gremlin/ui/profile.py:289-331 | the root is action 0 with no parent or container, every action of the sequence gets one number 0, 1, 2, ..., and every other action's parent is numbered before it |
| ProfileModels.GroupedMembers | gremlin/ui/profile.py:314-317 | every action is filed under its (parent, container) key, and a key holds only the numbers of actions with that key |
| ProfileModels.GroupedStep | gremlin/ui/profile.py:314-317 | filing one more action appends its number under its key |
| ProfileModels.MaxOf | gremlin/ui/profile.py:524-531 | `sorted(indices)[-1]` of a non-empty list is one of its elements and no smaller than any |
| ProfileModels.ContainerIndices | gremlin/ui/profile.py:524-530 | one container index per listed action |
| ProfileModels.SiblingMax | gremlin/ui/profile.py:524-531 | the largest container index among the actions under a key bounds all of them and belongs to one of them |
| ProfileModels.InputItemBindingModel.constructor | gremlin/ui/profile.py:271-287 | a new binding model has numbered the root's actions breadth first |
| ProfileModels.InputItemBindingModel.CreateActionModels | gremlin/ui/profile.py:289-331 | the loop numbers the actions breadth first, as Bfs describes and Layout characterises, and files each under its (parent, container) key |
| ProfileModels.InputItemBindingModel.NumberHead | gremlin/ui/profile.py:302-329 | one turn numbers and files the head of the queue and queues its children after the rest |
| ProfileModels.InputItemBindingModel.QueueChildren | gremlin/ui/profile.py:320-329 | the inner loop queues the children with their container indices |
| ProfileModels.InputItemBindingModel.ActionAt | gremlin/ui/profile.py:342-345 | the action with that number, GremlinError exactly for a number no action has |
| ProfileModels.InputItemBindingModel.ChildActions | gremlin/ui/profile.py:333-340 | KeyError exactly for a number no action has; otherwise exactly the actions whose parent is that action and whose container is the named one |
| ProfileModels.InputItemBindingModel.IsLastInContainer | gremlin/ui/profile.py:514-531 | true exactly when no sibling in the same container has a larger container index; the root raises AttributeError and an unknown number KeyError |
| ProfileModels.LabelValueSelection.constructor | gremlin/ui/profile.py:839-855 | the model holds the labels and values and selects position 0 |
| ProfileModels.LabelValueSelection.RowCount | gremlin/ui/profile.py:857-858 | one row per label |
| ProfileModels.LabelValueSelection.Create | gremlin/ui/profile.py:849 | unequal numbers of labels and values fail the assertion; otherwise a new model selecting position 0 |
| ProfileModels.LabelValueSelection.CurrentValue | gremlin/ui/profile.py:877-878 | the value at the selected position, IndexError when there is none |
| ProfileModels.LabelValueSelection.SetCurrentValue | gremlin/ui/profile.py:880-891 | a listed value selects its first position and reads back as written; an unlisted one leaves the selection unchanged |
| PyCore.StripLeft | gremlin/ui/device.py:79 | the result is a suffix of the text, everything dropped before it is white space, and it does not start with white space |
| PyCore.StripRight | gremlin/ui/device.py:79 | the result is a prefix of the text, everything dropped after it is white space, and it does not end with white space |
| PyCore.StripBothEnds | gremlin/ui/device.py:79-83 | stripping both ends leaves nothing exactly when every character of the text is white space |
| PyCore.Strip | gremlin/ui/device.py:79-83 | the stripped label has no white space at either end, is no longer than the label, and is empty exactly when the label is blank |
| PyCore.StripIsSlice | gremlin/ui/device.py:79-83 | the stripped text is the slice between the leading and the trailing white space |
| PyCore.StripPadded | gremlin/ui/device.py:79-83 | one white-space character on each side is stripped with the rest |
| PyCore.StripKeeps | gremlin/ui/device.py:79-83 | text that neither starts nor ends with white space strips to itself |
| DeviceModels.ParseMode | gremlin/ui/device.py:73-89 | an option text names a mode exactly when it is one of the three valid options, and then that mode's text is the option text |
| DeviceModels.ModeTextRoundTrip | gremlin/ui/device.py:1174 | each mode's text is a valid option and parses back to the same mode |
| DeviceModels.RegisteredDefaultIsNotAnOption | gremlin/ui/device.py:1166-1177 | the registered default "Numerical & Label" is not one of the valid option texts |
| DeviceModels.DeviceMapping.InputNameAsWritten | gremlin/ui/device.py:73-89 | the input's own name for "Numerical" or an input without a non-blank label, and no name (None) exactly when the mode text is not a valid option and the input has a label |
| DeviceModels.DeviceMapping.InputName | gremlin/ui/device.py:73-89 | the own name for Numerical or an unlabelled input; "name - label" with the stripped label for Numerical + Label; the stripped, non-empty label alone for Label; every mode but Label starts with the input's name |
| DeviceModels.AsWrittenAgreesOnValidModes | gremlin/ui/device.py:73-89 | for each valid option text the code as written gives the name the three-mode version gives |
| DeviceModels.RegisteredDefaultLosesLabelledNames | gremlin/ui/device.py:73-89 | with the option at its registered default every labelled input gets no name, where the intended default gives "name - label" |
| DeviceModels.TriggerIsALabel | gremlin/ui/device.py:79-83 | the label "Trigger" is not blank |
| DeviceModels.RegisteredDefaultExample | gremlin/ui/device.py:1166-1177 | "Button 1" labelled "Trigger" gets no name under the registered default |
| DeviceModels.PyContains | gremlin/ui/device.py:143-145 | `in` works on dicts, lists and strings and raises TypeError on any other JSON value |
| DeviceModels.PyLen | gremlin/ui/device.py:154 | `len` works on dicts, lists and strings, is the number of keys of a dict, and raises TypeError on any other value |
| DeviceModels.PyLookup | gremlin/ui/device.py:161-171 | indexing succeeds exactly for a dict holding the key and gives its value; KeyError for a missing key, TypeError for a value that is not a dict |
| DeviceModels.HasDeviceFields | gremlin/ui/device.py:143-146 | an entry passes exactly when "product_id", "vendor_id" and "mapping" are all in it; a value the test cannot be applied to raises TypeError |
| DeviceModels.ScanDevices | gremlin/ui/device.py:141-151 | the loop counts at most as many entries as it walked and can raise only TypeError |
| DeviceModels.ScanAcceptsExactly | gremlin/ui/device.py:141-151 | the loop keeps the flag set exactly when every entry has its three fields, and then it counts every entry |
| DeviceModels.ScanErrorSticks | gremlin/ui/device.py:141-151 | once an entry raises, the loop over the whole list raises |
| DeviceModels.DeviceDbVerdict | gremlin/ui/device.py:122-159 | a database without "devices" raises KeyError, and the parse can raise nothing but KeyError or TypeError |
| DeviceModels.DeviceDbAcceptsExactly | gremlin/ui/device.py:122-159 | the parse answers True exactly when "mapping" is a non-empty dict and "devices" a non-empty list whose every entry has "product_id", "vendor_id" and "mapping" |
| DeviceModels.ParseDeviceDb | gremlin/ui/device.py:122-159 | the method with its flag and device loop answers what DeviceDbVerdict states, raising where it raises |
| DeviceModels.DefaultDbFails | gremlin/ui/device.py:120-159 | the fallback database would itself fail the parse, as it lists no device |
| DeviceModels.ParseLoaded | gremlin/ui/device.py:109-134 | a loaded value that is not a dict raises AttributeError; a True answer means a dict that passes the parse |
| DeviceModels.LoadAsWritten | gremlin/ui/device.py:100-120 | an inaccessible file keeps the database held; a decoded database that passes is stored, one that fails stores the fallback, and one the parse raises on raises |
| DeviceModels.UndecodableFileRaises | gremlin/ui/device.py:106-142 | a file that does not decode makes the parse of the empty dict raise KeyError |
| DeviceModels.DeviceMatches | gremlin/ui/device.py:161-162 | the entry matches exactly when both ids equal the device's; it raises exactly when the entry is not a dict, lacks "product_id", or matches it and lacks "vendor_id" |
| DeviceModels.MappingSearch | gremlin/ui/device.py:169-183 | a mapping found is one of the database's mappings |
| DeviceModels.FirstMatching | gremlin/ui/device.py:169-170 | the position found is of an entry for the device with none before it, and no position means no entry is for the device |
| DeviceModels.MappingSearchFindsFirst | gremlin/ui/device.py:169-183 | over well-formed entries the search never raises and gives the mapping named by the first entry for the device, or None when there is no such entry or its mapping name is unknown |
| DeviceModels.DeviceDatabase.constructor | gremlin/ui/device.py:93-98 | a database starts with nothing loaded |
| DeviceModels.DeviceDatabase.Load | gremlin/ui/device.py:100-120 | only the fallback or a database that passed the parse is ever stored; an undecodable file stores the fallback, otherwise the outcome is that of LoadAsWritten |
| DeviceModels.DeviceDatabase.MappingFor | gremlin/ui/device.py:164-183 | None for no device, AttributeError while nothing is loaded, and otherwise the search over the stored devices and mappings, which exist |
| DeviceModels.DeviceDatabase.GetMapping | gremlin/ui/device.py:164-183 | the loop that stops at the first entry for the device answers what MappingFor states |
| DeviceModels.Device.constructor | gremlin/ui/device.py:339-343 | a device model starts without device and without mapping |
| DeviceModels.Device.ConvertIndex | gremlin/ui/device.py:447-466 | AttributeError without a device; the first rows are the axes in axis-map order, then buttons numbered from 1, then hats numbered from 1, a hat number past the last exactly for a row past the last; a negative row reads the axis map from its end |
| DeviceModels.Device.RowCount | gremlin/ui/device.py:373-378 | no rows without a device; otherwise one row per axis, button and hat |
| DeviceModels.Device.RowOf | gremlin/ui/device.py:447-466 | a row found lies inside the device's rows, and an axis's row is a position of the axis map holding that axis |
| DeviceModels.Device.ConvertIndexRoundTrip | gremlin/ui/device.py:447-466 | with one distinct axis index per axis, every row converts to an input whose row is that row |
| DeviceModels.Device.RowOfRoundTrip | gremlin/ui/device.py:447-466 | every input that has a row is the input its row converts to |
| DeviceModels.Device.SetGuid | gremlin/ui/device.py:361-371 | the current guid changes nothing; otherwise the device is replaced and the mapping becomes what MappingFor gives, or the lookup's error is raised with the device already replaced |
| DeviceModels.DeviceListModel.constructor | gremlin/ui/device.py:257-259 | the model lists the devices it is given |
| DeviceModels.DeviceListModel.GuidAtIndex | gremlin/ui/device.py:290-295 | the guid of the device at the index exactly for an index in range, GremlinError otherwise |
| DeviceModels.DeviceListModel.GuidAtIndexCoversDevices | gremlin/ui/device.py:290-295 | a device is listed exactly when some index in range answers for it |
| DeviceModels.LastGuidIndex | gremlin/ui/device.py:650-657 | the last position holding the guid when one does, 0 when none does |
| DeviceModels.IoInputsModel.constructor | gremlin/ui/device.py:610-616 | no valid-type filter, position 0 and no guid selected |
| DeviceModels.IoInputsModel.SetCurrentGuid | gremlin/ui/device.py:650-658 | the current guid changes nothing; a new guid is selected together with the last position holding it among the listed inputs, or 0 |
| DeviceModels.IoInputsModel.LastPosition | gremlin/ui/device.py:654-657 | the loop's position is the one LastGuidIndex states |

## Left out

Outside the model altogether:
- Threads, operating-system hooks and device drivers are concurrency or foreign calls. This covers:
  - the construction of `EventListener`, its `_run` loop, the DILL callbacks, the debounce timer and the mouse hook (gremlin/event_handler.py);
  - the relative-axis thread and the vJoy writes of action_plugins/map_to_vjoy.
  - Of the listener, only the keyboard repeat filter is modelled.
- XML and file input and output are I/O:
  - The `from_xml` and `to_xml` bodies and `Profile.to_xml` are not modelled.
  - Where a parser's logic matters, the parsed XML is an abstract record: the library worklist and the chain-N ordering.
  - The DeviceDatabase JSON file is not read. Whether it is accessible, and what `json.load` returned, are parameters.
- Qt and QML plumbing is not modelled:
  - signals, `Property` wiring, row notifications, roles and `data()`, QML registration;
  - program start-up;
  - plugin discovery through importlib.
- The plugins action_plugins/map_to_io, play_sound and response_curve are singleton event emitters, audio playback or a Qt adapter. The response-curve adapter calls `fit()`, `invert()` and `is_symmetric` of a curve API that gremlin/spline.py does not define. None of these is modelled.
- Floating point:
  - Coordinates and times are `real`, and IEEE rounding is not modelled.
  - `time.time()` and `uuid.uuid4()` enter as parameters.
  - IntermediateOutputs.IntermediateOutput.Create requires the fresh guid it is given to be unused, standing for uuid4's uniqueness.
- Callbacks, functors and the comparators of comparator.py are opaque values: running them is not modelled.
  - What a condition decides about the current input enters ConditionPlugin.ConditionFunctor.Call as a list of verdicts.
  - The functor's own snapshot of the conditions is not modelled.
- gremlin/tree.py is not part of this model. The mode hierarchy is a parent map. The order in which a deleted mode's children are re-parented is not modelled.
- gremlin/types.py and gremlin/util.py are not part of this model. Only the enumeration members the modelled code names, and `util.clamp`, are stated.
- The device summaries the DILL library reports enter as DeviceSummary values. Its lookup by guid enters Device.SetGuid as a parameter.
- Parsing a guid string with `uuid.UUID` is not modelled. Guids are abstract values.

Operations of the core files that are not modelled:
- `IntermediateOutput._get_input` uses an `_index_lookup` that the class never defines (gremlin/intermediate_output.py:262-283).
- ConditionModel's `addAction` and its `logicalOperator` property are Qt wiring around list appends and one assignment.
- VirtualButtonModel's `_set_direction` is not modelled.
- InputItemModel's `newActionSequence` and `deleteActionSequnce` are not modelled.
- InputItemBindingModel's `move_action`, `remove_action`, `append_action` and `_set_behavior` are not modelled.
  - Of these editor operations, the model keeps the logic the editor's layout and drag and drop depend on.
- ActionModel's remaining properties only forward to the action's data. Only the activation check boxes and the drop decision are modelled.
- In gremlin/ui/device.py:
  - `DeviceListModel._change_device_type` and `IODeviceInputsModel._set_valid_types` are not modelled;
  - `IODeviceManagementModel`, `VJoyDevices` and the device state models are Qt list models over driver state;
  - `Device` name and description roles are not modelled.

Simplifications:
- Python dictionaries that keep insertion order are sequences; the others are maps.
- JSON numbers in the device database are integers.
- `str.strip` and `int()` remove the ASCII characters `str.isspace` accepts: space, tab, line feed, vertical tab, form feed, carriage return and 0x1C-0x1F. Other Unicode white space is not modelled.

Broken references, modelled as evidently intended rather than as the error they raise:
- Bézier evaluation:
  - reads `points[0][1]` of a Point2D, modelled as its y (gremlin/spline.py:247);
  - calls an unbound `gremlin.util.clamp`, modelled as the clamp (gremlin/spline.py:260);
  - indexes a Point2D, modelled as its x (gremlin/spline.py:286).
- `axis_reverse_lookup` raises a GremlinError that the file does not import; the model raises GremlinError (gremlin/input_cache.py:159).
- Keyboard.IsPressed takes key identifiers only. The name-to-key conversion through the unbound `gremlin.keyboard` is not modelled (gremlin/input_cache.py:342).

Modelled as written rather than as evidently intended:
- Profiles.Library.RemoveUnused. With `recursive` it fails on the `(actions, selectors)` tuple that `get_actions` returns, and its "only if unused" test never fires.
- Profiles.Library.FromXml:
  - It stops with the NonTermination fault where the source loops forever on a reference that never appears.
  - Its `knownTypes` parameter stands for the plugin manager's tag map.
- ConditionPlugin.Condition.UpdateKeyboardInputs raises IndexError on an empty list.
- ConditionPlugin.TruthState raises AttributeError for an operator other than All and Any.
- ConditionPlugin.ConditionModel.RemoveCondition accepts negative indices.
- BaseClasses.ActionData.InsertAction raises AttributeError for an anchor out of range, from its error message.
- ProfileModels.InputItemModel.PopSource skips the element after a popped one, as popping while enumerating does.
- ProfileModels.InputItemBindingModel.IsLastInContainer raises AttributeError for the root, which has no parent.

Weaker than the source:
- EventHandling.EventListener.KeyboardHandler: the source asks `is_pressed` with the tuple `(scan_code, is_extended)` (gremlin/event_handler.py:315-317). It records the new state under `key_from_code(scan_code, is_extended)` (320-323). The model assumes that both address the same entry of `_keyboard_state`; gremlin/keyboard.py, which defines the key's equality and hash, is not part of this model. If they differ, the source never suppresses a repeat, and the model's suppression does not hold.
- ProfileModels.VirtualButton: one class stands for VirtualAxisButton and VirtualHatButton. An axis button lists no direction and a hat button has zero limits, where the source's objects have no such attributes. The axis button's `direction` is not modelled.
- ProfileModels.VirtualButton.Hat: the order of `list(set(directions))` is the set's iteration order, which the language leaves open. The model keeps first occurrences and promises only that each given direction is listed once.
- EventHandling.EventHandler.BuildEventLookup: the callback lists are values, so a child mode inherits a copy of its parent's list. The source hands the child the parent's own list object (gremlin/event_handler.py:476).
- EventHandling.EventHandler.AddCallback: it appends to the one entry it names. In the source, after the lookup is built, the append (gremlin/event_handler.py:446-448) also reaches every child that shares that list. The model does not capture that sharing.
- ProfileModels.HatDirectionModel.constructor: the model holds a copy of the directions. The source keeps the caller's list (gremlin/ui/profile.py:195) and edits it in place (202-209), so the caller sees the edits; that aliasing is not modelled.
- IntermediateOutputs.IntermediateOutput.Create: when the generated label is still taken after the time suffix, the source stores a second input under that label and overwrites `_label_lookup` (gremlin/intermediate_output.py:158-159). The model raises GremlinError instead. This is the model's own choice: the comment at line 152 asks for a valid label, but gives no rule for choosing one.
- ChainPlugin.ParseInt: Unicode decimal digits and non-ASCII white space, which `int()` also accepts, are not modelled.
- InputCache.Joystick: `devices` is a class attribute in the source (gremlin/input_cache.py:283), shared by every instance. Here it is a field of the single instance. The intermediate output registry is passed in as the singleton it is.
- ProfileModels.InputItemModel.DropAction states the reordering only for a list of sequences whose root ids are distinct. For a list with repeats, the exact result of popping while enumerating is not stated.
- Profiles.ModeHierarchy.DeleteMode: deleting the root mode leaves the hierarchy as it was, with the root's children still under it. The source sets their parent to `None` (gremlin/profile.py:996-1000), which splits the tree into separate trees; the model's hierarchy is one parent map below one root and does not represent that forest. The root's input items are removed as in the source.
- EventHandling.EqualIffSameInput: equality compares hash keys, and hash collisions of the underlying `hash()` are not modelled.

## Findings

| source | as written | input that shows it | evidently intended | confidence | as-written member | corrected member |
|---|---|---|---|---|---|---|
| gremlin/intermediate_output.py:151-156 | a generated label that is taken gets " - <time>" appended once, and the result is not checked again | an unlabelled create when both "Button 1a2b3c4d" and "Button 1a2b3c4d - <now>" are labels already | a label that is free, so that labels stay unique; the source gives no rule for choosing one, and raising GremlinError when the suffixed label is taken is this model's choice | not executed | IntermediateOutputs.GeneratedLabelCanCollide | IntermediateOutputs.GeneratedLabel |
| gremlin/ui/device.py:1166-1177 | the option's registered default "Numerical & Label" is none of the three valid option texts, so `input_name` falls through and returns None for every labelled input | the default option with "Button 1" labelled "Trigger" | the default "Numerical + Label", giving "Button 1 - Trigger" | not executed | DeviceModels.RegisteredDefaultExample | DeviceModels.DeviceMapping.InputName |
| gremlin/ui/device.py:106-120 | after a JSON decoding error, the parse runs on the empty dict left in `json_data`, and `device_db["devices"]` raises KeyError | a database file that is not valid JSON | fall back to the empty database, as the `load_successful` flag intends | not executed | DeviceModels.UndecodableFileRaises | DeviceModels.DeviceDatabase.Load |
