/** Collecting the distinct components of an assembly: the script walks every
    occurrence and keeps an occurrence's component only when no component of
    the same name has been kept before. */
module Components {
  import opened Host
  import opened Sequences

  /** The names of a list of components, position by position. */
  function NamesOf<N>(cs: seq<Component<N>>): seq<string>
  {
    seq(|cs|, k requires 0 <= k < |cs| => cs[k].name)
  }

  /** The component each occurrence places, in occurrence order. */
  function ComponentsOf<N>(occurrences: seq<Occurrence<N>>): seq<Component<N>>
  {
    seq(|occurrences|, i requires 0 <= i < |occurrences| => occurrences[i].component)
  }

  /** The position of the first component named `n`. */
  function FirstIndex<N>(cs: seq<Component<N>>, n: string): (i: nat)
    requires n in NamesOf(cs)
    ensures i < |cs| && cs[i].name == n
    ensures forall j :: 0 <= j < i ==> cs[j].name != n
    decreases |cs|
  {
    if cs[0].name == n then 0
    else
      assert NamesOf(cs) == [cs[0].name] + NamesOf(cs[1..]);
      1 + FirstIndex(cs[1..], n)
  }

  /** The components kept by a first-seen walk over `cs`: a component is kept
      when no component of the same name was kept before it. */
  function FirstSeen<N>(cs: seq<Component<N>>): (r: seq<Component<N>>)
    ensures |r| <= |cs|
    decreases |cs|
  {
    if cs == [] then []
    else
      var kept := FirstSeen(cs[..|cs| - 1]);
      var c := cs[|cs| - 1];
      if c.name in NamesOf(kept) then kept else kept + [c]
  }

  lemma NamesOfSnoc<N>(cs: seq<Component<N>>, c: Component<N>)
    ensures NamesOf(cs + [c]) == NamesOf(cs) + [c.name]
  {
  }

  lemma SplitLast<N>(cs: seq<Component<N>>)
    requires cs != []
    ensures cs == cs[..|cs| - 1] + [cs[|cs| - 1]]
  {
  }

  /** The kept components carry pairwise distinct names. */
  lemma {:induction false} FirstSeenNamesDistinct<N>(cs: seq<Component<N>>)
    ensures forall a, b :: 0 <= a < b < |FirstSeen(cs)| ==> FirstSeen(cs)[a].name != FirstSeen(cs)[b].name
    decreases |cs|
  {
    if cs != [] {
      var kept, c := FirstSeen(cs[..|cs| - 1]), cs[|cs| - 1];
      FirstSeenNamesDistinct(cs[..|cs| - 1]);
      if c.name !in NamesOf(kept) {
        var r := FirstSeen(cs);
        assert r == kept + [c];
        forall a, b | 0 <= a < b < |r|
          ensures r[a].name != r[b].name
        {
          if b == |kept| {
            assert NamesOf(kept)[a] == kept[a].name;
          }
        }
      }
    }
  }

  /** A name occurs among the kept components exactly when it occurs in the input. */
  lemma {:induction false} FirstSeenCovers<N>(cs: seq<Component<N>>)
    ensures forall n :: n in NamesOf(FirstSeen(cs)) <==> n in NamesOf(cs)
    decreases |cs|
  {
    if cs != [] {
      var p, c := cs[..|cs| - 1], cs[|cs| - 1];
      FirstSeenCovers(p);
      SplitLast(cs);
      NamesOfSnoc(p, c);
      NamesOfSnoc(FirstSeen(p), c);
    }
  }

  /** Appending a component does not move the first position of a name that
      already occurs. */
  lemma FirstIndexSnoc<N>(cs: seq<Component<N>>, c: Component<N>, n: string)
    requires n in NamesOf(cs)
    ensures n in NamesOf(cs + [c]) && FirstIndex(cs + [c], n) == FirstIndex(cs, n)
  {
    NamesOfSnoc(cs, c);
    var i := FirstIndex(cs, n);
    assert (cs + [c])[i] == cs[i];
  }

  /** Each kept component is the first component of the input with its name. */
  lemma {:induction false} FirstSeenKeepsFirst<N>(cs: seq<Component<N>>)
    ensures forall k :: 0 <= k < |FirstSeen(cs)| ==>
      FirstSeen(cs)[k].name in NamesOf(cs) && FirstSeen(cs)[k] == cs[FirstIndex(cs, FirstSeen(cs)[k].name)]
    decreases |cs|
  {
    if cs != [] {
      var p, c := cs[..|cs| - 1], cs[|cs| - 1];
      var kept := FirstSeen(p);
      FirstSeenKeepsFirst(p);
      FirstSeenCovers(p);
      SplitLast(cs);
      NamesOfSnoc(p, c);
      forall k | 0 <= k < |kept|
        ensures kept[k].name in NamesOf(cs) && kept[k] == cs[FirstIndex(cs, kept[k].name)]
      {
        FirstIndexSnoc(p, c, kept[k].name);
      }
      if c.name !in NamesOf(kept) {
        assert c.name !in NamesOf(p);
        forall i | 0 <= i < |p|
          ensures cs[i].name != c.name
        {
          assert NamesOf(p)[i] == p[i].name == cs[i].name;
        }
        assert NamesOf(cs)[|cs| - 1] == c.name;
        assert FirstIndex(cs, c.name) == |cs| - 1;
        assert FirstSeen(cs) == kept + [c];
      }
    }
  }

  /** The kept components appear in the order in which their names first
      appear in the input. */
  lemma {:induction false} FirstSeenOrder<N>(cs: seq<Component<N>>)
    ensures forall a, b :: 0 <= a < b < |FirstSeen(cs)| ==>
      FirstSeen(cs)[a].name in NamesOf(cs) && FirstSeen(cs)[b].name in NamesOf(cs) &&
      FirstIndex(cs, FirstSeen(cs)[a].name) < FirstIndex(cs, FirstSeen(cs)[b].name)
    decreases |cs|
  {
    if cs != [] {
      var p, c := cs[..|cs| - 1], cs[|cs| - 1];
      var kept := FirstSeen(p);
      FirstSeenOrder(p);
      FirstSeenCovers(p);
      SplitLast(cs);
      NamesOfSnoc(p, c);
      forall k | 0 <= k < |kept|
        ensures kept[k].name in NamesOf(p) && FirstIndex(cs, kept[k].name) == FirstIndex(p, kept[k].name)
      {
        assert NamesOf(kept)[k] == kept[k].name;
        FirstIndexSnoc(p, c, kept[k].name);
      }
      if c.name !in NamesOf(kept) {
        assert c.name !in NamesOf(p);
        forall i | 0 <= i < |p|
          ensures cs[i].name != c.name
        {
          assert NamesOf(p)[i] == p[i].name == cs[i].name;
        }
        assert NamesOf(cs)[|cs| - 1] == c.name;
        assert FirstIndex(cs, c.name) == |cs| - 1;
        assert FirstSeen(cs) == kept + [c];
      }
      var r := FirstSeen(cs);
      forall a, b | 0 <= a < b < |r|
        ensures r[a].name in NamesOf(cs) && r[b].name in NamesOf(cs)
        ensures FirstIndex(cs, r[a].name) < FirstIndex(cs, r[b].name)
      {
        if b == |kept| {
          assert NamesOf(cs)[|cs| - 1] == c.name;
        }
      }
    } else {
      assert FirstSeen(cs) == [];
    }
  }

  /** A list whose names are already distinct is kept whole. */
  lemma {:induction false} FirstSeenOfDistinct<N>(cs: seq<Component<N>>)
    requires forall a, b :: 0 <= a < b < |cs| ==> cs[a].name != cs[b].name
    ensures FirstSeen(cs) == cs
    decreases |cs|
  {
    if cs != [] {
      var p, c := cs[..|cs| - 1], cs[|cs| - 1];
      FirstSeenOfDistinct(p);
      assert forall k :: 0 <= k < |p| ==> NamesOf(p)[k] == cs[k].name;
      SplitLast(cs);
    }
  }

  /** Collecting the distinct components a second time changes nothing. */
  lemma FirstSeenIdempotent<N>(cs: seq<Component<N>>)
    ensures FirstSeen(FirstSeen(cs)) == FirstSeen(cs)
  {
    FirstSeenNamesDistinct(cs);
    FirstSeenOfDistinct(FirstSeen(cs));
  }

  /** The script's walk over all occurrences. `componentsListName` is kept in
      lockstep with `componentsList`: entry k is the name of component k. */
  method GetAllComponents<N>(allOccurrences: seq<Occurrence<N>>) returns (componentsList: seq<Component<N>>)
    ensures componentsList == FirstSeen(ComponentsOf(allOccurrences))
    ensures |componentsList| <= |allOccurrences|
    ensures forall a, b :: 0 <= a < b < |componentsList| ==> componentsList[a].name != componentsList[b].name
    ensures forall i :: 0 <= i < |allOccurrences| ==> allOccurrences[i].component.name in NamesOf(componentsList)
  {
    componentsList := [];
    var componentsListName: seq<string> := [];
    ghost var all := ComponentsOf(allOccurrences);
    var index := 0;
    while index < |allOccurrences|
      invariant 0 <= index <= |allOccurrences|
      invariant componentsList == FirstSeen(all[..index])
      invariant componentsListName == NamesOf(componentsList)
    {
      var component := allOccurrences[index].component;
      var name := component.name;
      assert all[..index + 1][..index] == all[..index];
      if Count(componentsListName, name) == 0 {
        NamesOfSnoc(componentsList, component);
        componentsList := componentsList + [component];
        componentsListName := componentsListName + [name];
      }
      index := index + 1;
    }
    assert all[..index] == all;
    FirstSeenNamesDistinct(all);
    FirstSeenCovers(all);
    forall i | 0 <= i < |allOccurrences|
      ensures allOccurrences[i].component.name in NamesOf(componentsList)
    {
      assert NamesOf(all)[i] == allOccurrences[i].component.name;
    }
  }
}
