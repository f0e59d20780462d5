/** The joint records the script exports. Each joint gives a dict that always
    starts with the joint's name; the remaining attributes are read one after
    the other inside one exception handler, so a read that raises leaves the
    keys stored before it, and the record ends with an 'error' flag. */
module Joints {
  import opened Host

  /** Joint type names, by the host's joint type index. */
  const JointTypeName := ["fixed", "revolute", "prismatic", "cylinderical", "pinslot", "planner", "ball"]

  /** One key/value pair of an exported dict. */
  datatype Entry<+N> = Entry(key: string, value: Value<N>)

  /** An exported dict, as its entries in insertion order. */
  type Record<N> = seq<Entry<N>>

  /** The keys stored inside the exception handler, in the order the script
      stores them, before the closing 'error' flag. */
  const GuardedKeys := ["reference1", "reference2", "jointType_index", "jointType_expression",
                        "supression_state", "origin", "axis"]

  /** The keys of a record, in order. */
  function Keys<N>(r: Record<N>): seq<string>
  {
    seq(|r|, k requires 0 <= k < |r| => r[k].key)
  }

  /** Dict lookup: the value stored under `key`, if any. */
  function Lookup<N>(r: Record<N>, key: string): (v: Option<Value<N>>)
    ensures v.Some? <==> key in Keys(r)
  {
    if r == [] then None
    else
      assert Keys(r) == [r[0].key] + Keys(r[1..]);
      if r[0].key == key then Some(r[0].value) else Lookup(r[1..], key)
  }

  function ReadValue<T, N>(rd: Read<T>, wrap: T -> Value<N>): Option<Value<N>>
  {
    match rd
    case Ok(v) => Some(wrap(v))
    case Raises => None
  }

  /** What each guarded step of the handler stores, or None where that step
      raises. The type name lookup raises when the type index cannot be read
      or is past the end of the table. */
  function StepValues<N>(j: Joint<N>): (steps: seq<Option<Value<N>>>)
    ensures |steps| == |GuardedKeys|
  {
    [ ReadValue(j.occurrenceOne, s => Str(s)),
      ReadValue(j.occurrenceTwo, s => Str(s)),
      ReadValue(j.jointType, (i: nat) => Int(i)),
      if j.jointType.Ok? && j.jointType.value < |JointTypeName|
      then Some(Str(JointTypeName[j.jointType.value])) else None,
      ReadValue(j.isSuppressed, b => Bool(b)),
      ReadValue(j.origin, v => Vec(v)),
      ReadValue(j.primaryAxis, v => Vec(v)) ]
  }

  /** The number of steps that complete before the first one that raises. */
  function Completed<N>(steps: seq<Option<Value<N>>>): (n: nat)
    ensures n <= |steps|
    ensures forall k :: 0 <= k < n ==> steps[k].Some?
    ensures n < |steps| ==> steps[n].None?
  {
    if steps == [] || steps[0].None? then 0 else 1 + Completed(steps[1..])
  }

  /** Every read the handler makes succeeds and the type index is in the table. */
  predicate AllReadsSucceed<N>(j: Joint<N>)
  {
    && j.occurrenceOne.Ok?
    && j.occurrenceTwo.Ok?
    && j.jointType.Ok? && j.jointType.value < |JointTypeName|
    && j.isSuppressed.Ok?
    && j.origin.Ok?
    && j.primaryAxis.Ok?
  }

  /** The entries stored by the first n guarded steps, all of which complete. */
  function GuardedEntries<N>(steps: seq<Option<Value<N>>>, n: nat): (r: Record<N>)
    requires n <= |steps| && n <= |GuardedKeys|
    requires forall k :: 0 <= k < n ==> steps[k].Some?
    ensures |r| == n
    ensures forall k :: 0 <= k < n ==> r[k] == Entry(GuardedKeys[k], steps[k].value)
  {
    if n == 0 then [] else GuardedEntries(steps, n - 1) + [Entry(GuardedKeys[n - 1], steps[n - 1].value)]
  }

  /** The record for one joint: its name, the guarded entries that completed,
      and the error flag. */
  function JointRecord<N>(j: Joint<N>): Record<N>
  {
    var steps := StepValues(j);
    var n := Completed(steps);
    [Entry("joint_name", Str(j.name))] + GuardedEntries(steps, n) + [Entry("error", Bool(n < |GuardedKeys|))]
  }

  /** The handler's steps all complete exactly when every read succeeds. */
  lemma CompletedAllIffSucceed<N>(j: Joint<N>)
    ensures Completed(StepValues(j)) == |GuardedKeys| <==> AllReadsSucceed(j)
  {
    var steps := StepValues(j);
    if AllReadsSucceed(j) {
      assert forall k :: 0 <= k < |steps| ==> steps[k].Some?;
    }
    if Completed(steps) == |GuardedKeys| {
      assert steps[0].Some? && steps[1].Some? && steps[2].Some? && steps[3].Some?;
      assert steps[4].Some? && steps[5].Some? && steps[6].Some?;
    }
  }

  /** The keys of a joint record: 'joint_name', the guarded keys up to the
      first failing read, then 'error'; no key occurs twice. */
  lemma JointRecordKeys<N>(j: Joint<N>)
    ensures Keys(JointRecord(j)) ==
      ["joint_name"] + GuardedKeys[..Completed(StepValues(j))] + ["error"]
    ensures forall a, b :: 0 <= a < b < |JointRecord(j)| ==> JointRecord(j)[a].key != JointRecord(j)[b].key
  {
    var n := Completed(StepValues(j));
    var r := JointRecord(j);
    assert |r| == n + 2;
    forall k | 0 <= k < |r|
      ensures r[k].key == (["joint_name"] + GuardedKeys[..n] + ["error"])[k]
    {
    }
    var all := ["joint_name"] + GuardedKeys + ["error"];
    forall a, b | 0 <= a < b < |r|
      ensures r[a].key != r[b].key
    {
      var a', b' := a, if b == n + 1 then 8 else b;
      assert r[a].key == all[a'] && r[b].key == all[b'];
    }
  }

  /** A joint record always starts with the joint's name. */
  lemma JointRecordName<N>(j: Joint<N>)
    ensures JointRecord(j)[0] == Entry("joint_name", Str(j.name))
    ensures Lookup(JointRecord(j), "joint_name") == Some(Str(j.name))
  {
  }

  /** The error flag is set exactly when some read fails. */
  lemma JointRecordError<N>(j: Joint<N>)
    ensures Lookup(JointRecord(j), "error") == Some(Bool(!AllReadsSucceed(j)))
  {
    CompletedAllIffSucceed(j);
    JointRecordKeys(j);
    var r := JointRecord(j);
    LookupLast(r, "error");
  }

  /** A key stored only in the last entry is found there. */
  lemma {:induction false} LookupLast<N>(r: Record<N>, key: string)
    requires r != [] && r[|r| - 1].key == key
    requires forall k :: 0 <= k < |r| - 1 ==> r[k].key != key
    ensures Lookup(r, key) == Some(r[|r| - 1].value)
  {
    if |r| > 1 {
      LookupLast(r[1..], key);
    }
  }

  /** When every read succeeds, the record holds the type name from the table. */
  lemma JointRecordSuccess<N>(j: Joint<N>)
    requires AllReadsSucceed(j)
    ensures Lookup(JointRecord(j), "jointType_expression") == Some(Str(JointTypeName[j.jointType.value]))
    ensures Lookup(JointRecord(j), "error") == Some(Bool(false))
    ensures |JointRecord(j)| == 9
    ensures Keys(JointRecord(j)) == ["joint_name"] + GuardedKeys + ["error"]
  {
    CompletedAllIffSucceed(j);
    JointRecordError(j);
    JointRecordKeys(j);
    assert GuardedKeys[..|GuardedKeys|] == GuardedKeys;
    var r := JointRecord(j);
    assert r[4] == Entry("jointType_expression", Str(JointTypeName[j.jointType.value]));
    assert r[..5] == r[..4] + [r[4]];
    LookupLast(r[..5], "jointType_expression");
    LookupPrefix(r, 5, "jointType_expression");
  }

  /** A key found in a prefix is found with the same value in the whole record. */
  lemma {:induction false} LookupPrefix<N>(r: Record<N>, n: nat, key: string)
    requires n <= |r| && Lookup(r[..n], key).Some?
    ensures Lookup(r, key) == Lookup(r[..n], key)
  {
    if r[0].key != key {
      assert r[..n][1..] == r[1..][..n - 1];
      LookupPrefix(r[1..], n - 1, key);
    }
  }

  /** Without a readable type index inside the table there is no type name in
      the record, and the error flag is set. */
  lemma JointRecordBadType<N>(j: Joint<N>)
    requires j.jointType.Raises? || j.jointType.value >= |JointTypeName|
    ensures Lookup(JointRecord(j), "jointType_expression") == None
    ensures Lookup(JointRecord(j), "error") == Some(Bool(true))
  {
    JointRecordError(j);
    JointRecordKeys(j);
    var n := Completed(StepValues(j));
    assert StepValues(j)[3].None?;
    assert n <= 3;
    assert "jointType_expression" !in ["joint_name"] + GuardedKeys[..n] + ["error"];
  }

  /** The script's handling of one joint. */
  method BuildJointRecord<N>(joint: Joint<N>) returns (properties: Record<N>)
    ensures properties == JointRecord(joint)
  {
    ghost var steps := StepValues(joint);
    ghost var head := [Entry("joint_name", Str(joint.name))];
    properties := [Entry("joint_name", Str(joint.name))];
    if joint.occurrenceOne.Raises? {
      FailedAt(joint, 0, properties);
      properties := properties + [Entry("error", Bool(true))];
      return;
    }
    properties := properties + [Entry("reference1", Str(joint.occurrenceOne.value))];
    assert properties == head + GuardedEntries(steps, 1);
    if joint.occurrenceTwo.Raises? {
      FailedAt(joint, 1, properties);
      properties := properties + [Entry("error", Bool(true))];
      return;
    }
    properties := properties + [Entry("reference2", Str(joint.occurrenceTwo.value))];
    assert properties == head + GuardedEntries(steps, 2);
    if joint.jointType.Raises? {
      FailedAt(joint, 2, properties);
      properties := properties + [Entry("error", Bool(true))];
      return;
    }
    var index := joint.jointType.value;
    properties := properties + [Entry("jointType_index", Int(index))];
    assert properties == head + GuardedEntries(steps, 3);
    if index >= |JointTypeName| {
      FailedAt(joint, 3, properties);
      properties := properties + [Entry("error", Bool(true))];
      return;
    }
    properties := properties + [Entry("jointType_expression", Str(JointTypeName[index]))];
    assert properties == head + GuardedEntries(steps, 4);
    if joint.isSuppressed.Raises? {
      FailedAt(joint, 4, properties);
      properties := properties + [Entry("error", Bool(true))];
      return;
    }
    properties := properties + [Entry("supression_state", Bool(joint.isSuppressed.value))];
    assert properties == head + GuardedEntries(steps, 5);
    if joint.origin.Raises? {
      FailedAt(joint, 5, properties);
      properties := properties + [Entry("error", Bool(true))];
      return;
    }
    properties := properties + [Entry("origin", Vec(joint.origin.value))];
    assert properties == head + GuardedEntries(steps, 6);
    if joint.primaryAxis.Raises? {
      FailedAt(joint, 6, properties);
      properties := properties + [Entry("error", Bool(true))];
      return;
    }
    properties := properties + [Entry("axis", Vec(joint.primaryAxis.value))];
    assert properties == head + GuardedEntries(steps, 7);
    properties := properties + [Entry("error", Bool(false))];
  }

  /** When step k is the first to raise, the record is what was stored so far
      followed by a set error flag. */
  lemma FailedAt<N>(j: Joint<N>, k: nat, stored: Record<N>)
    requires k < |GuardedKeys|
    requires forall i :: 0 <= i < k ==> StepValues(j)[i].Some?
    requires StepValues(j)[k].None?
    requires stored == [Entry("joint_name", Str(j.name))] + GuardedEntries(StepValues(j), k)
    ensures JointRecord(j) == stored + [Entry("error", Bool(true))]
  {
    assert Completed(StepValues(j)) == k;
  }

  /** One record per joint, in the host's joint order, failed ones included. */
  method GetRootJoints<N>(rootJoints: seq<Joint<N>>) returns (joints: seq<Record<N>>)
    ensures |joints| == |rootJoints|
    ensures forall k :: 0 <= k < |rootJoints| ==> joints[k] == JointRecord(rootJoints[k])
  {
    joints := [];
    for i := 0 to |rootJoints|
      invariant |joints| == i
      invariant forall k :: 0 <= k < i ==> joints[k] == JointRecord(rootJoints[k])
    {
      var properties := BuildJointRecord(rootJoints[i]);
      joints := joints + [properties];
    }
  }
}
