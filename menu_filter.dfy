/** Permission filtering of a menu tree (`authorizedItems`): depth-first,
    keeping the entries the permission handler allows and rewriting the
    `subitems` of every kept entry to their own filtered list. */
module MenuFilter {
  import opened MenuItems

  /** An entry is kept when it owns no `permissions` property, or when the
      handler accepts the value of that property. */
  predicate Allowed(x: Item, can: Permissions -> bool) {
    x.permissions.None? || can(x.permissions.value)
  }

  /** The list of kept entries, in their original order, each one visited. */
  function Filter(s: seq<Item>, can: Permissions -> bool): seq<Item>
    decreases s
  {
    if s == [] then []
    else
      var x := s[|s| - 1];
      Filter(s[..|s| - 1], can) + (if Allowed(x, can) then [Visit(x, can)] else [])
  }

  /** A kept entry after its visit: when it owns `subitems`, they are
      replaced by their filtered list; otherwise it is left alone. */
  function Visit(x: Item, can: Permissions -> bool): Item
    decreases x
  {
    match x.subitems
    case Absent => x
    case Present(sub) => x.(subitems := Present(Filter(sub, can)))
  }

  /** The stored list after filtering it: the kept entries were visited (and
      so rewritten in place), the dropped ones are untouched. */
  function WriteBack(s: seq<Item>, can: Permissions -> bool): seq<Item> {
    seq(|s|, i requires 0 <= i < |s| => if Allowed(s[i], can) then Visit(s[i], can) else s[i])
  }

  /** The permission values handed to the handler while filtering `s`, in
      call order. A dropped entry contributes only its own value: its
      sub-entries are never looked at. */
  function Queries(s: seq<Item>, can: Permissions -> bool): seq<Permissions>
    decreases s
  {
    if s == [] then []
    else Queries(s[..|s| - 1], can) + ItemQueries(s[|s| - 1], can)
  }

  function ItemQueries(x: Item, can: Permissions -> bool): seq<Permissions>
    decreases x
  {
    (if x.permissions.Some? then [x.permissions.value] else [])
    + (if Allowed(x, can) && x.subitems.Present? then Queries(x.subitems.entries, can) else [])
  }

  /** `authorizedItems(items)`: returns the new list of kept entries and, as
      a second result, the stored list as the in-place rewrite of `subitems`
      leaves it; `asked` records the calls made to the handler. */
  method AuthorizedItems(items: seq<Item>, can: Permissions -> bool)
    returns (filtered: seq<Item>, stored: seq<Item>, ghost asked: seq<Permissions>)
    ensures filtered == Filter(items, can)
    ensures stored == WriteBack(items, can)
    ensures asked == Queries(items, can)
    decreases Present(items)  // compared structurally: the sub-entries lie inside `items`
  {
    filtered, stored, asked := [], [], [];
    var i := 0;
    while i < |items|
      invariant 0 <= i <= |items|
      invariant filtered == Filter(items[..i], can)
      invariant stored == WriteBack(items[..i], can)
      invariant asked == Queries(items[..i], can)
    {
      var item := items[i];
      assert item in items;
      Step(items, i, can);
      if item.permissions.Some? {
        asked := asked + [item.permissions.value];
      }
      if item.permissions.Some? && !can(item.permissions.value) {
        // dropped: left as it is, its sub-entries are not visited
      } else {
        if item.subitems.Present? {
          var sub, subStored;
          ghost var deeper;
          sub, subStored, deeper := AuthorizedItems(item.subitems.entries, can);
          asked := asked + deeper;
          item := item.(subitems := Present(sub));
        }
        filtered := filtered + [item];
      }
      stored := stored + [item];
      i := i + 1;
    }
    assert items[..|items|] == items;
  }

  /** One more entry of the input extends the three results by that entry's
      share. */
  lemma Step(s: seq<Item>, i: int, can: Permissions -> bool)
    requires 0 <= i < |s|
    ensures Filter(s[..i + 1], can) == Filter(s[..i], can) + (if Allowed(s[i], can) then [Visit(s[i], can)] else [])
    ensures WriteBack(s[..i + 1], can) == WriteBack(s[..i], can) + [if Allowed(s[i], can) then Visit(s[i], can) else s[i]]
    ensures Queries(s[..i + 1], can) == Queries(s[..i], can) + ItemQueries(s[i], can)
  {
    assert s[..i + 1][..i] == s[..i];
  }

  /** Positions of the entries that filtering keeps, ascending. */
  function KeptIndices(s: seq<Item>, can: Permissions -> bool): seq<int>
    decreases s
  {
    if s == [] then []
    else KeptIndices(s[..|s| - 1], can) + (if Allowed(s[|s| - 1], can) then [|s| - 1] else [])
  }

  /** Filtering yields an in-order subsequence of its input: the k-th result
      is the visited entry at the k-th kept position, the positions ascend,
      and a position is kept exactly when its entry is allowed. */
  lemma {:induction false} FilterIsSubsequence(s: seq<Item>, can: Permissions -> bool)
    ensures |KeptIndices(s, can)| == |Filter(s, can)|
    ensures forall k :: 0 <= k < |KeptIndices(s, can)| ==>
              0 <= KeptIndices(s, can)[k] < |s| && Filter(s, can)[k] == Visit(s[KeptIndices(s, can)[k]], can)
    ensures forall k, l :: 0 <= k < l < |KeptIndices(s, can)| ==> KeptIndices(s, can)[k] < KeptIndices(s, can)[l]
    ensures forall i :: 0 <= i < |s| ==> (i in KeptIndices(s, can) <==> Allowed(s[i], can))
    decreases s
  {
    if s != [] {
      var init := s[..|s| - 1];
      FilterIsSubsequence(init, can);
      forall i | 0 <= i < |init| ensures s[i] == init[i] { }
    }
  }

  /** The entries returned are the stored entries themselves, as the filter
      left them: the k-th result is the rewritten entry at the k-th kept
      position of the stored list. */
  lemma ResultIsStoredEntries(s: seq<Item>, can: Permissions -> bool)
    ensures |Filter(s, can)| == |KeptIndices(s, can)|
    ensures forall k :: 0 <= k < |KeptIndices(s, can)| ==>
              0 <= KeptIndices(s, can)[k] < |s| && Filter(s, can)[k] == WriteBack(s, can)[KeptIndices(s, can)[k]]
  {
    FilterIsSubsequence(s, can);
  }

  /** A visit rewrites `subitems` and nothing else; an entry without
      `subitems` comes out as it went in. */
  lemma VisitTouchesOnlySubitems(x: Item, can: Permissions -> bool)
    ensures Visit(x, can) == x.(subitems := Visit(x, can).subitems)
    ensures x.subitems.Absent? ==> Visit(x, can) == x
    ensures x.subitems.Present? ==> Visit(x, can).subitems == Present(Filter(x.subitems.entries, can))
    ensures Allowed(Visit(x, can), can) == Allowed(x, can)
  {
  }

  /** With a handler that allows everything, filtering keeps every entry at
      every depth. */
  lemma {:induction false} AllowAllKeepsEverything(s: seq<Item>, can: Permissions -> bool)
    requires forall p :: can(p)
    ensures Filter(s, can) == s
    decreases s
  {
    if s != [] {
      AllowAllKeepsEverything(s[..|s| - 1], can);
      AllowAllKeepsItem(s[|s| - 1], can);
      assert s == s[..|s| - 1] + [s[|s| - 1]];
    }
  }

  lemma {:induction false} AllowAllKeepsItem(x: Item, can: Permissions -> bool)
    requires forall p :: can(p)
    ensures Visit(x, can) == x
    decreases x
  {
    if x.subitems.Present? {
      AllowAllKeepsEverything(x.subitems.entries, can);
    }
  }

  /** Filtering an already filtered list changes nothing. */
  lemma {:induction false} FilterIdempotent(s: seq<Item>, can: Permissions -> bool)
    ensures Filter(Filter(s, can), can) == Filter(s, can)
    decreases s
  {
    if s != [] {
      var init, x := s[..|s| - 1], s[|s| - 1];
      FilterIdempotent(init, can);
      var f := Filter(s, can);
      if Allowed(x, can) {
        VisitIdempotent(x, can);
        VisitTouchesOnlySubitems(x, can);
        assert f == Filter(init, can) + [Visit(x, can)];
        assert f[..|f| - 1] == Filter(init, can);
      } else {
        assert f == Filter(init, can);
      }
    }
  }

  lemma {:induction false} VisitIdempotent(x: Item, can: Permissions -> bool)
    ensures Visit(Visit(x, can), can) == Visit(x, can)
    decreases x
  {
    if x.subitems.Present? {
      FilterIdempotent(x.subitems.entries, can);
    }
  }

  /** Filtering the stored list as a first filtering left it gives the same
      result as the first time, and leaves it as it was: reading a menu twice
      with the same handler yields equal lists. */
  lemma {:induction false} FilterAfterWriteBack(s: seq<Item>, can: Permissions -> bool)
    ensures Filter(WriteBack(s, can), can) == Filter(s, can)
    ensures WriteBack(WriteBack(s, can), can) == WriteBack(s, can)
    decreases s
  {
    var w := WriteBack(s, can);
    forall i | 0 <= i < |s| ensures WriteBack(w, can)[i] == w[i] {
      if Allowed(s[i], can) { VisitIdempotent(s[i], can); }
    }
    if s != [] {
      var init, x := s[..|s| - 1], s[|s| - 1];
      FilterAfterWriteBack(init, can);
      assert w[..|s| - 1] == WriteBack(init, can);
      if Allowed(x, can) { VisitIdempotent(x, can); }
    }
  }

  /** The result depends on the handler only through the calls actually made:
      two handlers that agree on every value queried give the same result
      and make the same calls. */
  lemma {:induction false} FilterDependsOnlyOnQueries(s: seq<Item>, can: Permissions -> bool, can': Permissions -> bool)
    requires forall p :: p in Queries(s, can) ==> can(p) == can'(p)
    ensures Filter(s, can) == Filter(s, can')
    ensures Queries(s, can) == Queries(s, can')
    decreases s
  {
    if s != [] {
      var init, x := s[..|s| - 1], s[|s| - 1];
      FilterDependsOnlyOnQueries(init, can, can');
      ItemDependsOnlyOnQueries(x, can, can');
    }
  }

  lemma {:induction false} ItemDependsOnlyOnQueries(x: Item, can: Permissions -> bool, can': Permissions -> bool)
    requires forall p :: p in ItemQueries(x, can) ==> can(p) == can'(p)
    ensures Allowed(x, can) == Allowed(x, can')
    ensures Allowed(x, can) ==> Visit(x, can) == Visit(x, can')
    ensures ItemQueries(x, can) == ItemQueries(x, can')
    decreases x
  {
    if x.permissions.Some? {
      assert x.permissions.value in ItemQueries(x, can);
    }
    if Allowed(x, can) && x.subitems.Present? {
      FilterDependsOnlyOnQueries(x.subitems.entries, can, can');
    }
  }

  /** A dropped entry's sub-entries are never visited: replacing them by
      anything changes neither the result nor the calls made. */
  lemma {:induction false} DroppedSubtreeIrrelevant(s: seq<Item>, i: int, t: Children, can: Permissions -> bool)
    requires 0 <= i < |s| && !Allowed(s[i], can)
    ensures Filter(s[i := s[i].(subitems := t)], can) == Filter(s, can)
    ensures Queries(s[i := s[i].(subitems := t)], can) == Queries(s, can)
    decreases s
  {
    var s' := s[i := s[i].(subitems := t)];
    if i < |s| - 1 {
      DroppedSubtreeIrrelevant(s[..|s| - 1], i, t, can);
      assert s'[..|s| - 1] == s[..|s| - 1][i := s[i].(subitems := t)];
    } else {
      assert s'[..|s| - 1] == s[..|s| - 1];
    }
  }

  /** The write-back keeps the length of the list and every entry's fields
      other than `subitems`; in particular every `order`. */
  lemma WriteBackKeepsFields(s: seq<Item>, can: Permissions -> bool)
    ensures |WriteBack(s, can)| == |s|
    ensures forall i :: 0 <= i < |s| ==> WriteBack(s, can)[i] == s[i].(subitems := WriteBack(s, can)[i].subitems)
    ensures forall i :: 0 <= i < |s| && !Allowed(s[i], can) ==> WriteBack(s, can)[i] == s[i]
    ensures AllOrdered(s) ==> AllOrdered(WriteBack(s, can))
  {
  }
}
