# ngMenu `$menu` provider — a Dafny model

This project models the `$menu` provider of the ngMenu AngularJS module
(`src/angular-menu.js`). The provider is a small in-memory registry of named
navigation menus. The model covers:

- **the store** `$$menus`, which maps each menu name to its list of entries.
  A fresh provider holds only the empty `"default"` menu;
- **registration** `item(x, menu)`, which merges an object entry over the
  defaults `{icon: 'bolt', order: 0}` and pushes it onto the menu's list;
- **the permission handler** `permissions(h)`, whose default allows everything;
- **service instantiation** `$get`, which sorts every stored menu in place by
  ascending `order` using a three-way comparator;
- **the read function** the service returns. It filters one menu depth-first
  through the handler (`authorizedItems`), and it rewrites each kept entry's
  `subitems` in place to their filtered list.

Modules:

- `MenuItems` (`menu_items.dfy`) holds the entry datatype, the defaults merge
  and the comparator. An entry's fields are `Option`s: `None` means the
  JavaScript object does not own that property.
- `MenuSort` (`menu_sort.dfy`) holds the in-place sort of one menu, on an
  `array`.
- `MenuFilter` (`menu_filter.dfy`) holds the recursive filter. It has three
  parts:
  - specification functions: `Filter`, `Visit`, `WriteBack` and `Queries`;
  - the method `AuthorizedItems`, whose loop is proved against those functions;
  - lemmas about them.
- `MenuRegistry` (`menu_registry.dfy`) holds the provider as a class
  `Registry` and the read function as a class `Service`.

Entries are values. The in-place write of `item.subitems` is modelled
explicitly: `AuthorizedItems` also returns the stored list as that write leaves
it (`WriteBack`), and `Service.Get` stores the list back.

Some of the code's behaviour is unusual, and the model keeps it as written:

- **Only the default menu accepts registrations.** For a name other than
  `"default"`, `item` first replaces an existing menu by the plain object `{}`.
  Then it pushes onto whatever is stored, which is `{}` or nothing, and the push
  throws a `TypeError`. `Registry.AddItem` returns `TypeError` in that case. A
  non-object argument does not push, but it still clobbers an existing
  non-default menu. `item` never adds a name to the store, because the push
  throws before any key is created, so a provider built and filled only through
  `item` holds just `"default"`. A non-default menu, and with it a clobbered
  one, can only come from a store written from outside `item`.
- **Clobbered menus make the service fail.** Sorting the `{}` throws, so
  `Registry.Instantiate` yields no service once any menu has been clobbered
  (which needs a non-default menu placed in the store from outside).
- **Stability is not promised.** Whether equal-`order` entries keep their
  relative order depends on the JavaScript engine, so the model promises only a
  nondecreasing permutation. `SortedPermutationsAgree` shows that the only
  freedom left is how ties are ordered.
- **Filtering changes the stored tree.** Each kept entry's stored `subitems` is
  replaced by its filtered list. Dropped entries are left alone, and so is
  everything under them.
- **The key is `subitems`.** The doc comment at line 39 says `subitem`, but the
  code reads `subitems`, and so does the model.

## Model

| member | source | states |
|---|---|---|
| `MenuItems.WithDefaults` | src/angular-menu.js:60-63 | the pushed entry keeps every property of the item; `icon` is `"bolt"` and `order` is `0` exactly where the item supplies none; supplied values win |
| `MenuItems.Compare` | src/angular-menu.js:96-100 | the comparator is -1, 0 or 1, negative exactly when `a.order < b.order` and positive exactly when `a.order > b.order` |
| `MenuItems.CompareIsConsistent` | src/angular-menu.js:96-100 | the comparator is antisymmetric, reflexive and transitive, as `Array.prototype.sort` requires of it |
| `MenuSort.SortedByComparator` | src/angular-menu.js:96-106 | in a list nondecreasing in `order`, no later entry compares below an earlier one |
| `MenuSort.SortByOrder` | src/angular-menu.js:106 | sorting a menu array in place leaves a permutation of it that is nondecreasing in `order` |
| `MenuSort.SortedPermutationsAgree` | src/angular-menu.js:105-107 | two sorted permutations of the same entries have the same `order` at every position, so the sort is determined up to ties |
| `MenuFilter.AuthorizedItems` | src/angular-menu.js:110-130 | the loop returns the filtered list, the stored list as the in-place `subitems` write leaves it, and the handler calls made, each equal to its specification function |
| `MenuFilter.FilterIsSubsequence` | src/angular-menu.js:114-127 | the result is an in-order subsequence of the input, and an entry is kept iff it owns no `permissions` or the handler accepts them |
| `MenuFilter.ResultIsStoredEntries` | src/angular-menu.js:120-125 | each returned entry is the stored entry at its kept position, as the rewrite leaves it |
| `MenuFilter.VisitTouchesOnlySubitems` | src/angular-menu.js:120-123 | visiting a kept entry replaces its `subitems`, when present, by their filtered list, and changes nothing else; an entry without `subitems` is untouched |
| `MenuFilter.AllowAllKeepsEverything` | src/angular-menu.js:114-127 | with a handler that accepts everything, the filter returns its input unchanged at every depth |
| `MenuFilter.FilterIdempotent` | src/angular-menu.js:110-130 | filtering an already filtered list changes nothing |
| `MenuFilter.FilterAfterWriteBack` | src/angular-menu.js:120-123 | filtering the rewritten stored list gives the same result as before and leaves it as it was |
| `MenuFilter.FilterDependsOnlyOnQueries` | src/angular-menu.js:116 | two handlers that agree on every permission value the filter asks about give the same result and the same calls |
| `MenuFilter.DroppedSubtreeIrrelevant` | src/angular-menu.js:116-118 | a dropped entry's sub-entries are never visited: replacing them changes neither the result nor the handler calls |
| `MenuFilter.WriteBackKeepsFields` | src/angular-menu.js:122 | the rewrite keeps the list's length and every field except `subitems`, and leaves dropped entries as they were |
| `MenuRegistry.MenuName` | src/angular-menu.js:52 | an absent or empty menu name selects `"default"`; any other name is used as given |
| `MenuRegistry.Lookup` | src/angular-menu.js:133 | the reader iterates the stored list of a name, and nothing for an unknown name or a clobbered `{}` |
| `MenuRegistry.Registry.constructor` | src/angular-menu.js:20-28 | a fresh provider holds exactly the empty default menu, and its handler allows everything |
| `MenuRegistry.Registry.AddItem` | src/angular-menu.js:50-67 | keeps the default menu a list; clobbers an existing non-default menu, then always appends the merged item to the default menu and leaves the rest alone; it throws for an object aimed anywhere else, and returns the provider for a non-object |
| `MenuRegistry.Registry.SetPermissions` | src/angular-menu.js:84-86 | replaces the handler, leaves the menus alone, and so keeps every stored entry ordered |
| `MenuRegistry.Registry.Instantiate` | src/angular-menu.js:92-107 | the service exists iff no menu was clobbered; it then captures the handler, and every menu is a sorted permutation of its old list |
| `MenuRegistry.Service.Get` | src/angular-menu.js:132-134 | returns the filtered entries of the named menu and writes the rewritten list back to that menu only |
| `MenuRegistry.FreshReadIsEmpty` | src/angular-menu.js:20 | reading a fresh provider with no menu name yields no entries |
| `MenuRegistry.UnknownMenuReadsEmpty` | src/angular-menu.js:110-134 | a name that holds no list reads as empty, whatever the handler |
| `MenuRegistry.DefaultHandlerKeepsAll` | src/angular-menu.js:26-28 | the default handler keeps every entry of a menu at every depth |
| `MenuRegistry.ReadTwice` | src/angular-menu.js:132-134 | two reads of a menu with no write in between return equal lists, and the second read leaves the store unchanged |

## Left out

- The AngularJS module and provider registration, the IIFE wrapper and `window`
  (lines 6-12 and 137-140) are framework glue and are not modelled.
- `$injector.invoke` on the handler factory (line 102) is not modelled. The
  handler is a plain `Permissions -> bool` parameter, and `permissions(h)`
  simply replaces it.
- `$menuMinErr` (line 8) is not modelled: it is defined but never used.
- Entries are values, so aliasing is not captured. Two consequences:
  - An entry object can be reachable twice: the same object in two menus, or
    under a dropped entry, and a caller can keep a reference to a `subitems`
    array that `angular.extend` shares. In JavaScript a rewrite made through one
    path shows through the other, and a later visit in the same read filters
    `subitems` that were already filtered, so it asks the handler fewer
    questions. The model treats each occurrence as a separate value.
  - Entries that a filter returns are copies here, while in JavaScript they
    are the stored objects. `ResultIsStoredEntries` states how they correspond.
- Property values are typed in the model:
  - `order` is an integer;
  - `subitems` is absent or a list;
  - `permissions` is one token or a list of tokens;
  - properties other than the six named ones are not modelled.

  JavaScript's loose comparisons on non-numeric `order` values and
  `angular.isObject` on non-array values are not modelled. An explicit
  `undefined` property value that `angular.extend` would copy is not modelled
  either.
- `MenuSort.SortByOrder`: promises a sorted permutation and not stability. The
  engine's sort algorithm is not under the code's control, and an insertion
  sort stands in for it.
- `MenuRegistry.Registry.Instantiate`: when the sort throws, the contract only
  says that each menu is either unchanged or sorted. Which menus were sorted
  first depends on the key order of the JavaScript object, which is not
  modelled.
- Sub-item sorting, a label-based sub-item merge, `hasItem` and an `isSubitem`
  flag do not exist in the code, so they are not modelled.
