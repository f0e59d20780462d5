/** The physical properties the script exports per distinct component: its
    name, its material name, its centre of mass and its moments of inertia,
    the last re-ordered into the order its unit label names. */
module Properties {
  import opened Host

  /** The material name exported when a component has no material. */
  const MissingDefinition := "Missing definition"

  /** The unit label appended after the six moments. */
  const InertiaLabel := "ixx ixy ixz iyy iyz izz [kg/cm^2]"

  /** The host's order of the six moments, the order the script's own note
      spells out. */
  const HostMomentNames := ["xx", "yy", "zz", "xy", "yz", "xz"]

  /** Exported slot k holds host moment InertiaOrder[k]. */
  const InertiaOrder: seq<nat> := [0, 3, 5, 1, 4, 2]

  /** One exported component entry: the dict with keys 'name', 'material',
      'mass_center' and 'inertia;global'. */
  datatype ComponentProperties<+N> = ComponentProperties(
    name: string,
    material: string,
    massCenter: seq<N>,
    inertia: seq<Value<N>>)

  /** The material name of a component, or the sentinel when it has none. */
  function GetMaterial<N>(component: Component<N>): (materialName: string)
    ensures component.material.Some? ==> materialName == component.material.value.name
    ensures component.material.None? ==> materialName == MissingDefinition
  {
    match component.material
    case Some(material) => material.name
    case None => MissingDefinition
  }

  /** The six moments in the host's order, without the success flag. */
  function HostMoments<N>(m: Moments<N>): seq<N>
  {
    [m.xx, m.yy, m.zz, m.xy, m.yz, m.xz]
  }

  /** `rep` is the exported inertia list for the host answer `m`: seven
      entries, slot k holding host moment InertiaOrder[k], then the label. */
  ghost predicate IsInertiaRecord<N>(m: Moments<N>, rep: seq<Value<N>>)
  {
    && |rep| == 7
    && rep[6] == Str(InertiaLabel)
    && forall k :: 0 <= k < 6 ==> rep[k] == Num(HostMoments(m)[InertiaOrder[k]])
  }

  /** The script's re-ordering: it makes a list of the host's answer, pops the
      success flag, appends the label, copies the list and overwrites slots
      0 to 5 of the copy from the original. */
  method InertiaRepresentation<N>(moments: Moments<N>) returns (representation: seq<Value<N>>)
    ensures representation == [Num(moments.xx), Num(moments.xy), Num(moments.xz),
                               Num(moments.yy), Num(moments.yz), Num(moments.zz), Str(InertiaLabel)]
    ensures IsInertiaRecord(moments, representation)
  {
    var inertia: seq<Value<N>> := [Bool(moments.ok), Num(moments.xx), Num(moments.yy), Num(moments.zz),
                                   Num(moments.xy), Num(moments.yz), Num(moments.xz)];
    inertia := inertia[1..];
    inertia := inertia + [Str(InertiaLabel)];
    representation := inertia;
    representation := representation[0 := inertia[0]];
    representation := representation[1 := inertia[3]];
    representation := representation[2 := inertia[5]];
    representation := representation[3 := inertia[1]];
    representation := representation[4 := inertia[4]];
    representation := representation[5 := inertia[2]];
  }

  /** Wraps each host number as an exported number. */
  function AsNumbers<N>(s: seq<N>): (r: seq<Value<N>>)
    ensures |r| == |s| && forall k :: 0 <= k < |s| ==> r[k] == Num(s[k])
  {
    seq(|s|, k requires 0 <= k < |s| => Num(s[k]))
  }

  /** InertiaOrder names every host slot exactly once. */
  lemma InertiaOrderIsPermutation()
    ensures |InertiaOrder| == 6
    ensures multiset(InertiaOrder) == multiset([0, 1, 2, 3, 4, 5])
  {
  }

  /** Exchanging two entries of a list keeps its multiset of entries. */
  lemma SwapKeepsMultiset<T>(s: seq<T>, i: nat, j: nat)
    requires i < j < |s|
    ensures multiset(s[i := s[j]][j := s[i]]) == multiset(s)
  {
  }

  /** Putting slot InertiaOrder[k] of a six-entry list in slot k keeps its
      multiset of entries. InertiaOrder is a permutation of the six slots
      (InertiaOrderIsPermutation) made of two exchanges, slots 1 and 3 and
      slots 2 and 5, which the proof performs one after the other. */
  lemma {:induction false} ReorderKeepsMultiset<T>(a: seq<T>, r: seq<T>)
    requires |a| == 6 && |r| == 6
    requires forall k :: 0 <= k < 6 ==> r[k] == a[InertiaOrder[k]]
    ensures multiset(r) == multiset(a)
  {
    SwapKeepsMultiset(a, 1, 3);
    var b := a[1 := a[3]][3 := a[1]];
    SwapKeepsMultiset(b, 2, 5);
    var c := b[2 := b[5]][5 := b[2]];
    forall k | 0 <= k < 6
      ensures r[k] == c[k]
    {
      assert r[k] == a[InertiaOrder[k]];
    }
    assert r == c;
  }

  /** The six exported moments are the six host moments, re-arranged and
      none altered. */
  lemma InertiaIsPermutation<N>(m: Moments<N>, rep: seq<Value<N>>)
    requires IsInertiaRecord(m, rep)
    ensures multiset(rep[..6]) == multiset(AsNumbers(HostMoments(m)))
  {
    var a := AsNumbers(HostMoments(m));
    forall k | 0 <= k < 6
      ensures rep[..6][k] == a[InertiaOrder[k]]
    {
      assert rep[k] == Num(HostMoments(m)[InertiaOrder[k]]);
    }
    ReorderKeepsMultiset(a, rep[..6]);
  }

  /** The label's k-th word is "i" followed by the host name of the moment
      stored in slot k, so the label describes the re-ordering truthfully. */
  lemma LabelMatchesOrder()
    ensures forall k :: 0 <= k < 6 ==>
      InertiaLabel[4 * k .. 4 * k + 3] == "i" + HostMomentNames[InertiaOrder[k]]
    ensures InertiaLabel[23..] == " [kg/cm^2]"
  {
    var l := InertiaLabel;
    assert l[0] == 'i' && l[1] == 'x' && l[2] == 'x';
    assert l[4] == 'i' && l[5] == 'x' && l[6] == 'y';
    assert l[8] == 'i' && l[9] == 'x' && l[10] == 'z';
    assert l[12] == 'i' && l[13] == 'y' && l[14] == 'y';
    assert l[16] == 'i' && l[17] == 'y' && l[18] == 'z';
    assert l[20] == 'i' && l[21] == 'z' && l[22] == 'z';
  }

  /** `p` is the exported entry of component `c`. */
  ghost predicate Describes<N>(p: ComponentProperties<N>, c: Component<N>)
  {
    && p.name == c.name
    && p.material == GetMaterial(c)
    && p.massCenter == c.centerOfMass
    && IsInertiaRecord(c.moments, p.inertia)
  }

  /** One exported entry per component, in the same order. */
  method GetPropertiesFromComponents<N>(componentsList: seq<Component<N>>)
    returns (propertiesFromComponents: seq<ComponentProperties<N>>)
    ensures |propertiesFromComponents| == |componentsList|
    ensures forall k :: 0 <= k < |componentsList| ==> Describes(propertiesFromComponents[k], componentsList[k])
  {
    propertiesFromComponents := [];
    for i := 0 to |componentsList|
      invariant |propertiesFromComponents| == i
      invariant forall k :: 0 <= k < i ==> Describes(propertiesFromComponents[k], componentsList[k])
    {
      var component := componentsList[i];
      var inertia := InertiaRepresentation(component.moments);
      var properties := ComponentProperties(component.name, GetMaterial(component), component.centerOfMass, inertia);
      propertiesFromComponents := propertiesFromComponents + [properties];
    }
  }
}
