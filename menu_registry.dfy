/** The menu provider (`$menuProvider`): the store of named menus, item
    registration, the permission handler setting, and the service that its
    `$get` builds, which sorts every menu once and then answers reads. */
module MenuRegistry {
  import opened MenuItems
  import opened MenuSort
  import opened MenuFilter

  const DefaultMenu: string := "default"

  /** The value stored under a menu name: a list of entries, or the empty
      plain object `{}` that registration writes over an existing menu other
      than the default one. */
  datatype Slot = List(items: seq<Item>) | Clobbered

  /** The argument of `item`: a record (an object), or anything else. */
  datatype Input = NonObject | Object(item: Item)

  /** How a call of `item` ends: it returns the provider itself, for
      chaining, or it throws a `TypeError` because there is no array to push
      onto. */
  datatype Outcome = ReturnsSelf | TypeError

  /** `menu || 'default'`: a missing or empty name means the default menu. */
  function MenuName(menu: Option<string>): (r: string)
    ensures r != ""
    ensures menu.None? || menu == Some("") ==> r == DefaultMenu
    ensures menu.Some? && menu.value != "" ==> r == menu.value
  {
    if menu.None? || menu.value == "" then DefaultMenu else menu.value
  }

  /** The handler installed until `permissions` replaces it: it allows
      every value. */
  const AllowAll: Permissions -> bool := _ => true

  /** What the reader iterates for a name: the stored list; a name that was
      never registered, or the `{}` left by registration, has no entries to
      iterate. */
  function Lookup(menus: map<string, Slot>, name: string): (r: seq<Item>)
    ensures name in menus && menus[name].List? ==> r == menus[name].items
    ensures name !in menus || menus[name].Clobbered? ==> r == []
  {
    if name in menus && menus[name].List? then menus[name].items else []
  }

  /** `after` is the list `before` sorted: a permutation of it,
      nondecreasing in `order`. */
  ghost predicate SortedFrom(before: Slot, after: Slot) {
    before.List? && after.List? && AllOrdered(after.items) && Sorted(after.items)
    && multiset(after.items) == multiset(before.items)
  }

  class Registry {
    /** `$$menus`: menu name to stored value. */
    var menus: map<string, Slot>
    /** `$$permissionsHandler`, as the predicate its factory produces. */
    var handler: Permissions -> bool

    /** The default menu is always a list, since registration never clobbers
        it and nothing removes a name; and every stored entry of every menu
        carries an `order`, as registration guarantees by merging the
        defaults. */
    ghost predicate Valid()
      reads this
    {
      && DefaultMenu in menus && menus[DefaultMenu].List?
      && forall n :: n in menus && menus[n].List? ==> AllOrdered(menus[n].items)
    }

    /** A fresh provider holds exactly the empty default menu and the
        allow-all handler. */
    constructor ()
      ensures Valid()
      ensures menus == map[DefaultMenu := List([])]
      ensures forall p :: handler(p)
    {
      menus := map[DefaultMenu := List([])];
      handler := AllowAll;
    }

    /** `item(x, menu)`. An existing menu other than the default one is first
        replaced by `{}`; then an object item, merged over the defaults, is
        pushed onto the target list, which only the default menu can still
        be, and the push throws when there is no list. */
    method AddItem(x: Input, menu: Option<string>) returns (r: Outcome)
      requires Valid()
      modifies this
      ensures Valid() && handler == old(handler)
      ensures var name := MenuName(menu);
        var cleared := if name != DefaultMenu && name in old(menus) then old(menus)[name := Clobbered] else old(menus);
        if x.Object? && name in cleared && cleared[name].List? then
          r == ReturnsSelf && menus == cleared[name := List(cleared[name].items + [WithDefaults(x.item)])]
        else
          menus == cleared && (r == ReturnsSelf <==> x.NonObject?)
      // A non-object argument never throws, and leaves the default menu and
      // an unknown name as they were.
      ensures x.NonObject? ==> r == ReturnsSelf
      ensures x.NonObject? && (MenuName(menu) == DefaultMenu || MenuName(menu) !in old(menus)) ==> menus == old(menus)
      // An object for any other menu throws, and nothing is appended anywhere.
      ensures x.Object? && MenuName(menu) != DefaultMenu ==>
        r == TypeError && menus.Keys == old(menus).Keys
        && forall n :: n in menus ==> menus[n] == old(menus)[n] || menus[n].Clobbered?
      // An object for the default menu is appended at its end, and no other
      // menu changes.
      ensures x.Object? && MenuName(menu) == DefaultMenu ==>
        r == ReturnsSelf && menus.Keys == old(menus).Keys
        && (forall n :: n in menus && n != DefaultMenu ==> menus[n] == old(menus)[n])
        && menus[DefaultMenu].List?
        && |menus[DefaultMenu].items| == |old(menus)[DefaultMenu].items| + 1
        && menus[DefaultMenu].items[..|old(menus)[DefaultMenu].items|] == old(menus)[DefaultMenu].items
        && menus[DefaultMenu].items[|old(menus)[DefaultMenu].items|] == WithDefaults(x.item)
    {
      var name := MenuName(menu);
      if name != DefaultMenu && name in menus {
        menus := menus[name := Clobbered];
      }
      if x.Object? {
        if name in menus && menus[name].List? {
          menus := menus[name := List(menus[name].items + [WithDefaults(x.item)])];
        } else {
          return TypeError;
        }
      }
      return ReturnsSelf;
    }

    /** `permissions(handler)`: replaces the handler and nothing else. */
    method SetPermissions(h: Permissions -> bool)
      modifies this
      ensures handler == h && menus == old(menus)
      ensures old(Valid()) ==> Valid()
    {
      handler := h;
    }

    /** `$get`: takes the current handler, then sorts every stored menu in
        place. Sorting `{}` throws, so the service exists exactly when no
        menu was clobbered; when it throws, the menus visited before are
        already sorted and the others untouched. */
    method Instantiate() returns (service: Service?)
      requires Valid()
      modifies this
      ensures Valid() && handler == old(handler) && menus.Keys == old(menus).Keys
      ensures service == null <==> exists n :: n in old(menus) && old(menus)[n].Clobbered?
      ensures forall n :: n in menus ==> menus[n] == old(menus)[n] || SortedFrom(old(menus)[n], menus[n])
      ensures service != null ==>
        fresh(service) && service.provider == this && service.can == old(handler)
        && forall n :: n in menus ==> SortedFrom(old(menus)[n], menus[n])
    {
      var todo := menus.Keys;
      while todo != {}
        invariant todo <= menus.Keys && menus.Keys == old(menus).Keys
        invariant Valid() && handler == old(handler)
        invariant forall n :: n in todo ==> menus[n] == old(menus)[n]
        invariant forall n :: n in menus && n !in todo ==> SortedFrom(old(menus)[n], menus[n])
        decreases todo
      {
        var n :| n in todo;
        match menus[n]
        case Clobbered =>
          return null;
        case List(s) =>
          var a := new Item[|s|](k requires 0 <= k < |s| => s[k]);
          assert a[..] == s;
          SortByOrder(a);
          menus := menus[n := List(a[..])];
        todo := todo - {n};
      }
      service := new Service(this, handler);
    }
  }

  /** The function that `$get` returns: it reads a menu through the handler
      captured when the service was built. */
  class Service {
    const provider: Registry
    const can: Permissions -> bool

    constructor (provider: Registry, can: Permissions -> bool)
      ensures this.provider == provider && this.can == can
    {
      this.provider := provider;
      this.can := can;
    }

    /** `$menu(menu)`: the permitted entries of the named menu, filtered
        depth-first. The kept entries of the stored menu have had their
        `subitems` rewritten in place; every other menu is untouched. */
    method Get(menu: Option<string>) returns (items: seq<Item>)
      requires provider.Valid()
      modifies provider
      ensures provider.Valid() && provider.handler == old(provider.handler)
      ensures items == Filter(Lookup(old(provider.menus), MenuName(menu)), can)
      ensures var name := MenuName(menu);
        provider.menus ==
          if name in old(provider.menus) && old(provider.menus)[name].List?
          then old(provider.menus)[name := List(WriteBack(old(provider.menus)[name].items, can))]
          else old(provider.menus)
    {
      var name := MenuName(menu);
      if name in provider.menus && provider.menus[name].List? {
        var stored;
        ghost var asked;
        items, stored, asked := AuthorizedItems(provider.menus[name].items, can);
        WriteBackKeepsFields(provider.menus[name].items, can);
        provider.menus := provider.menus[name := List(stored)];
      } else {
        items := [];
      }
    }
  }

  /** A fresh provider's service, read with no name, yields no entries. */
  lemma FreshReadIsEmpty(can: Permissions -> bool)
    ensures Filter(Lookup(map[DefaultMenu := List([])], MenuName(None)), can) == []
  {
  }

  /** A name that holds no list reads as empty, whatever the handler. */
  lemma UnknownMenuReadsEmpty(menus: map<string, Slot>, name: string, can: Permissions -> bool)
    requires name !in menus || menus[name].Clobbered?
    ensures Filter(Lookup(menus, name), can) == []
  {
  }

  /** The default handler keeps every entry of a menu, at every depth. */
  lemma DefaultHandlerKeepsAll(menus: map<string, Slot>, name: string)
    ensures Filter(Lookup(menus, name), AllowAll) == Lookup(menus, name)
  {
    AllowAllKeepsEverything(Lookup(menus, name), AllowAll);
  }

  /** Reading the same menu twice with the same handler, with no write in
      between, yields equal lists, and the second read leaves the store as
      the first one left it. */
  lemma ReadTwice(menus: map<string, Slot>, name: string, can: Permissions -> bool)
    requires name in menus && menus[name].List?
    ensures var after := menus[name := List(WriteBack(menus[name].items, can))];
      Filter(Lookup(after, name), can) == Filter(Lookup(menus, name), can)
      && after[name := List(WriteBack(after[name].items, can))] == after
  {
    FilterAfterWriteBack(menus[name].items, can);
  }
}
