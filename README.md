# Fusion 360 assembly data export, modelled in Dafny

The script `AssemblyGetDataFusion360Py.py` is a plugin for a CAD host. It reads an
open assembly and exports three lists:
- the reference positions of the top-level occurrences;
- the root joints;
- the physical properties of every distinct component.

It writes them as JSON and as a plain-text report. This project models the logic
the script owns. Host objects are plain records (`Host`). Host-computed numbers
(centre of mass, moments of inertia, joint geometry) are a type parameter `N`,
because the script only copies them.

- `Sequences`: Python's `list.count`, one generic count shared by the component
  walk and the report's newline count.
- `Components`: `get_all_components`. The script walks every occurrence and keeps
  its component only when no kept component has the same name. It keeps a list of
  components and a list of their names side by side. The method is proved equal to
  the reference function `FirstSeen`. The lemmas about `FirstSeen` say that:
  - kept names are distinct;
  - every input name is kept;
  - each kept component is the first one with its name;
  - the kept order is the order of first appearance;
  - running the walk again changes nothing.
- `Properties`: `get_material`, the inertia re-ordering, and
  `get_properties_from_components`. The host answers `(ok, xx, yy, zz, xy, yz, xz)`.
  The exported list is `[xx, xy, xz, yy, yz, zz, label]`. Its six numbers are a
  permutation of the host's six. Each word of the label names the moment stored in
  its slot.
- `Joints`: `get_root_joints`. Inside the exception handler, each attribute read is
  a `Read<T>`: a value or `Raises`. A type index outside the seven-entry name table
  also raises. The record is an ordered list of dict entries.
- `Report`: `stringfy_list` and the text assembled by `export`. Python's `str` is a
  function parameter. A section splits back into its printed items. The whole
  report splits back into banner, titles and items in order.

A joint whose read raises keeps every entry stored before that read, followed
by `error` = true (`Joints.JointRecordKeys`, `Joints.FailedAt`).

## Model

| member | source | states |
|---|---|---|
| `Sequences.Count` | AssemblyGetDataFusion360Py.py:61 | `list.count` is at most the length, and is zero exactly when the name is absent |
| `Components.FirstIndex` | AssemblyGetDataFusion360Py.py:57-63 | gives the position of the first component with the name: it has the name and no earlier one does |
| `Components.FirstSeen` | AssemblyGetDataFusion360Py.py:55-63 | the first-seen walk keeps at most as many components as there are occurrences |
| `Components.FirstSeenNamesDistinct` | AssemblyGetDataFusion360Py.py:61-63 | the kept components have pairwise distinct names |
| `Components.FirstSeenCovers` | AssemblyGetDataFusion360Py.py:57-63 | a name occurs among the kept components exactly when it occurs in the input |
| `Components.FirstSeenKeepsFirst` | AssemblyGetDataFusion360Py.py:57-63 | each kept component is the input's first component with that name |
| `Components.FirstSeenOrder` | AssemblyGetDataFusion360Py.py:57-63 | kept components follow the order in which their names first appear |
| `Components.FirstSeenOfDistinct` | AssemblyGetDataFusion360Py.py:57-63 | an input whose names are already distinct is kept whole |
| `Components.FirstSeenIdempotent` | AssemblyGetDataFusion360Py.py:57-63 | collecting the distinct components a second time changes nothing |
| `Components.GetAllComponents` | AssemblyGetDataFusion360Py.py:52-64 | the loop, with its name list kept in step with its component list, returns `FirstSeen` of the occurrences' components; the result has distinct names, covers every input name, and is no longer than the input |
| `Properties.GetMaterial` | AssemblyGetDataFusion360Py.py:109-115 | gives the material's name when there is a material, and otherwise exactly `Missing definition` |
| `Properties.InertiaRepresentation` | AssemblyGetDataFusion360Py.py:94-104 | from the host answer `(ok, xx, yy, zz, xy, yz, xz)` the list is exactly `[xx, xy, xz, yy, yz, zz, label]`: the flag is dropped and slot k holds host moment `InertiaOrder[k]` |
| `Properties.InertiaOrderIsPermutation` | AssemblyGetDataFusion360Py.py:99-104 | the slot map names each of the six host slots exactly once |
| `Properties.ReorderKeepsMultiset` | AssemblyGetDataFusion360Py.py:99-104 | filling slot k from slot `InertiaOrder[k]` keeps the multiset of entries |
| `Properties.InertiaIsPermutation` | AssemblyGetDataFusion360Py.py:98-104 | the six exported moments are a permutation of the six host moments; none is altered |
| `Properties.LabelMatchesOrder` | AssemblyGetDataFusion360Py.py:96-104 | word k of the unit label is `i` plus the host name of the moment in slot k, and the label ends in ` [kg/cm^2]` |
| `Properties.GetPropertiesFromComponents` | AssemblyGetDataFusion360Py.py:87-107 | one entry per component, in order, holding its name, material name, centre of mass and re-ordered inertia |
| `Joints.Lookup` | AssemblyGetDataFusion360Py.py:71-84 | a dict lookup finds a value exactly when the key is among the record's keys |
| `Joints.Completed` | AssemblyGetDataFusion360Py.py:73-83 | counts the guarded steps that finish before the first one that raises |
| `Joints.CompletedAllIffSucceed` | AssemblyGetDataFusion360Py.py:73-83 | all guarded steps finish exactly when every read succeeds and the type index is below 7 |
| `Joints.JointRecordKeys` | AssemblyGetDataFusion360Py.py:71-84 | the keys are `joint_name`, then the guarded keys up to the first failing read, then `error`; no key repeats |
| `Joints.JointRecordName` | AssemblyGetDataFusion360Py.py:72 | every record starts with the joint's name, so it always holds `joint_name` |
| `Joints.JointRecordError` | AssemblyGetDataFusion360Py.py:81-83 | `error` is true exactly when some read fails or the type index is 7 or more |
| `Joints.JointRecordSuccess` | AssemblyGetDataFusion360Py.py:76-81 | when every read succeeds, `jointType_expression` is `joint_type_name[index]`, `error` is false, and the record's keys are exactly `joint_name`, the seven guarded keys in order, and `error` |
| `Joints.JointRecordBadType` | AssemblyGetDataFusion360Py.py:76-77 | when the type index cannot be read or is 7 or more, there is no `jointType_expression` and `error` is true |
| `Joints.FailedAt` | AssemblyGetDataFusion360Py.py:82-84 | when step k is the first to raise, the record is whatever was already stored plus `error` = true |
| `Joints.BuildJointRecord` | AssemblyGetDataFusion360Py.py:71-84 | the guarded sequence of reads, stopping at the first exception, builds exactly `JointRecord` of the joint |
| `Joints.GetRootJoints` | AssemblyGetDataFusion360Py.py:66-85 | one record per joint, in order, including the joints whose reads failed |
| `Report.StringifiedEmpty` | AssemblyGetDataFusion360Py.py:117-121 | an empty list prints as the empty text |
| `Report.StringifyList` | AssemblyGetDataFusion360Py.py:117-121 | the loop builds the items' `str`, each followed by a newline, in order |
| `Report.StringifiedAppend` | AssemblyGetDataFusion360Py.py:117-121 | printing two lists one after the other prints their concatenation |
| `Report.StringifiedRoundTrip` | AssemblyGetDataFusion360Py.py:117-121 | if no item prints with a newline, splitting the text into lines gives back each item's `str` in order |
| `Report.StringifiedNewlines` | AssemblyGetDataFusion360Py.py:117-121 | if no item prints with a newline, the text has exactly one newline per item |
| `Report.SplitLinesCons` | AssemblyGetDataFusion360Py.py:117-121 | a newline-terminated line at the front of a text splits off as its first line |
| `Report.ReportIsLayout` | AssemblyGetDataFusion360Py.py:133-140 | the report is, line by line: the banner, then the positions title and entries, the joints title and entries, the components title and entries, then the banner |
| `Report.ReportLines` | AssemblyGetDataFusion360Py.py:133-140 | splitting the report into lines gives that layout back |
| `Report.ExportText` | AssemblyGetDataFusion360Py.py:133-145 | the `+=` sequence builds exactly the report text, and the message is `Files suscefully exported in ` plus the directory path |

## Left out

- `run` and `core` (lines 8-39) are left out. They get the host application and the active design and show message boxes. The catch-all handler is also there. All of these are calls into the host.
- `get_reference_component_positions` (lines 43-50) is left out. It only copies each top-level occurrence's name and transform. The report treats its entries as opaque items.
- The host's numbers are opaque values of type `N`. Nothing is computed on them. The same goes for how the host orders occurrences and joints: the model takes each as a given sequence.
- Directory creation, `json.dumps` and the file writes in `export` (lines 125-131, 141-143) are left out. `Report.ExportText` returns the text the script writes, rather than writing it.
- Python's `str` of a list or dict is a function parameter. The line-splitting lemmas assume it prints no raw newline. Python's `str` escapes newlines inside strings, so this holds for the exported entries.
- `joint.name` (line 72) is read outside the exception handler. The model assumes it can always be read. If it failed, the exception would go to `run`'s handler, which is left out.
- The joint type index is a natural number. The host's joint type enumeration is never negative, so Python's negative-index wrap-around in `joint_type_name[...]` is not modelled.
- `list.count` on the name list (line 61) is the recursive function `Sequences.Count`, not a loop, because it is a library call.
- The success flag that opens the host's inertia answer is dropped without being checked, exactly as the script does.
