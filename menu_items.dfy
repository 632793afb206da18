/** Menu entries as the menu provider stores them, the defaults merged into a
    newly registered entry, and the three-way comparator used to order them. */
module MenuItems {

  datatype Option<+T> = None | Some(value: T) {
    /** The wrapped value, or `default` when there is none. */
    function GetOr(default: T): T {
      match this
      case Some(v) => v
      case None => default
    }
  }

  /** The opaque value of an entry's `permissions` field: one token or a list
      of tokens. Only the permission handler interprets it. */
  datatype Permissions = Token(name: string) | Tokens(names: seq<string>)

  /** A menu entry. Each field is `None` exactly when the JavaScript object
      does not own that property; `subitems` holds nested entries, which are
      stored as the caller supplied them (no defaults are merged into them).
      `caption` is the JavaScript `label` property (`label` is a Dafny keyword). */
  datatype Item = Item(
    url: Option<string>,
    caption: Option<string>,
    icon: Option<string>,
    order: Option<int>,
    permissions: Option<Permissions>,
    subitems: Children)

  /** The `subitems` property: absent, or a list of nested entries. */
  datatype Children = Absent | Present(entries: seq<Item>)

  const DefaultIcon: string := "bolt"
  const DefaultOrder: int := 0

  /** The entry `angular.extend({icon: 'bolt', order: 0}, item)` builds: every
      property of the item, over the two defaults. */
  function WithDefaults(x: Item): (r: Item)
    ensures r.url == x.url && r.caption == x.caption
    ensures r.permissions == x.permissions && r.subitems == x.subitems
    ensures r.icon.Some? && r.order.Some?
    ensures x.icon.Some? ==> r.icon == x.icon
    ensures x.order.Some? ==> r.order == x.order
    ensures x.icon.None? ==> r.icon.value == DefaultIcon
    ensures x.order.None? ==> r.order.value == DefaultOrder
  {
    x.(icon := Some(x.icon.GetOr(DefaultIcon)), order := Some(x.order.GetOr(DefaultOrder)))
  }

  /** Every entry of the list carries an `order`: true of every list the
      registration path builds, since the defaults supply one. */
  predicate AllOrdered(s: seq<Item>) {
    forall k :: 0 <= k < |s| ==> s[k].order.Some?
  }

  /** The comparator handed to `Array.prototype.sort`: negative, zero or
      positive as `a` sorts before, together with, or after `b`. */
  function Compare(a: Item, b: Item): (r: int)
    requires a.order.Some? && b.order.Some?
    ensures -1 <= r <= 1
    ensures r < 0 <==> a.order.value < b.order.value
    ensures r > 0 <==> a.order.value > b.order.value
  {
    if a.order.value < b.order.value then -1
    else if a.order.value > b.order.value then 1
    else 0
  }

  /** The comparator is consistent, as `Array.prototype.sort` requires:
      antisymmetric, reflexive and transitive. */
  lemma CompareIsConsistent(a: Item, b: Item, c: Item)
    requires a.order.Some? && b.order.Some? && c.order.Some?
    ensures Compare(a, b) == -Compare(b, a)
    ensures Compare(a, a) == 0
    ensures Compare(a, b) <= 0 && Compare(b, c) <= 0 ==> Compare(a, c) <= 0
  {
  }
}
