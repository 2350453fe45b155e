/** Who owns a node of a partial replan: the upward walk to a selected root, and the descendant closure. */
module Ownership {
  import opened Basics
  import opened Backlog

  type Items = map<string, Item>

  /** The parent of a known node, when that parent is known too. */
  function KnownParent(items: Items, key: string): Option<string> {
    if key in items && items[key].parent.Some? && items[key].parent.value in items then items[key].parent else None
  }

  /** `_selected_root_owner` once `seen` has been visited. */
  function OwnerFrom(key: string, items: Items, roots: set<string>, seen: set<string>): Option<string>
    decreases items.Keys - seen
  {
    if key in seen then None
    else if key in roots then Some(key)
    else
      var parent := KnownParent(items, key);
      if parent.None? then None
      else
        assert items.Keys - (seen + {key}) < items.Keys - seen by {
          assert key in items.Keys - seen;
        }
        OwnerFrom(parent.value, items, roots, seen + {key})
  }

  function Owner(key: string, items: Items, roots: set<string>): Option<string> {
    OwnerFrom(key, items, roots, {})
  }

  /** `_selected_root_owner`: climb until a root, a dead end or a repetition. */
  method SelectedRootOwner(key: string, items: Items, roots: set<string>) returns (owner: Option<string>)
    ensures owner == Owner(key, items, roots)
  {
    var seen: set<string> := {};
    var current := key;
    while current !in seen
      invariant OwnerFrom(key, items, roots, {}) == OwnerFrom(current, items, roots, seen)
      decreases items.Keys - seen, current !in seen
    {
      if current in roots {
        return Some(current);
      }
      var parent := KnownParent(items, current);
      if parent.None? {
        return None;
      }
      assert items.Keys - (seen + {current}) < items.Keys - seen by {
        assert current in items.Keys - seen;
      }
      seen := seen + {current};
      current := parent.value;
    }
    return None;
  }

  /** `key` meets its first root after exactly `n` parent steps. */
  predicate RootedIn(items: Items, roots: set<string>, key: string, n: nat)
    decreases n
  {
    if n == 0 then key in roots
    else key !in roots && KnownParent(items, key).Some? && RootedIn(items, roots, KnownParent(items, key).value, n - 1)
  }

  /** The node reached after `n` parent steps. */
  function Ancestor(items: Items, key: string, n: nat): Option<string>
    decreases n
  {
    if n == 0 then Some(key)
    else if KnownParent(items, key).None? then None
    else Ancestor(items, KnownParent(items, key).value, n - 1)
  }

  lemma {:induction false} RootedOnce(items: Items, roots: set<string>, key: string, n: nat, m: nat)
    requires RootedIn(items, roots, key, n) && RootedIn(items, roots, key, m)
    ensures n == m
    decreases n
  {
    if n > 0 && m > 0 {
      RootedOnce(items, roots, KnownParent(items, key).value, n - 1, m - 1);
    }
  }

  lemma {:induction false} OwnerFound(items: Items, roots: set<string>, key: string, seen: set<string>)
    requires OwnerFrom(key, items, roots, seen).Some?
    ensures exists n: nat :: RootedIn(items, roots, key, n) && Ancestor(items, key, n) == OwnerFrom(key, items, roots, seen)
    decreases items.Keys - seen
  {
    if key in roots {
      assert RootedIn(items, roots, key, 0) && Ancestor(items, key, 0) == Some(key);
    } else {
      var parent := KnownParent(items, key).value;
      assert items.Keys - (seen + {key}) < items.Keys - seen by {
        assert key in items.Keys - seen;
      }
      OwnerFound(items, roots, parent, seen + {key});
      var n: nat :| RootedIn(items, roots, parent, n)
               && Ancestor(items, parent, n) == OwnerFrom(parent, items, roots, seen + {key});
      assert RootedIn(items, roots, key, n + 1) && Ancestor(items, key, n + 1) == Ancestor(items, parent, n);
    }
  }

  lemma {:induction false} OwnerReached(items: Items, roots: set<string>, key: string, seen: set<string>, n: nat)
    requires RootedIn(items, roots, key, n)
    requires forall s, m: nat | s in seen && m <= n :: !RootedIn(items, roots, s, m)
    ensures OwnerFrom(key, items, roots, seen) == Ancestor(items, key, n)
    ensures Ancestor(items, key, n).Some? && Ancestor(items, key, n).value in roots
    decreases n
  {
    if n > 0 {
      forall s, m: nat | s in seen + {key} && m <= n - 1 ensures !RootedIn(items, roots, s, m) {
        if s == key && RootedIn(items, roots, key, m) {
          RootedOnce(items, roots, key, n, m);
        }
      }
      OwnerReached(items, roots, KnownParent(items, key).value, seen + {key}, n - 1);
    }
  }

  /** The walk finds the nearest root above `key`, whatever cycles the parents form. */
  lemma OwnerExact(items: Items, roots: set<string>, key: string)
    ensures Owner(key, items, roots).Some? <==> exists n: nat :: RootedIn(items, roots, key, n)
    ensures forall n: nat :: RootedIn(items, roots, key, n) ==> Owner(key, items, roots) == Ancestor(items, key, n)
    ensures Owner(key, items, roots).Some? ==> Owner(key, items, roots).value in roots
  {
    forall n: nat | RootedIn(items, roots, key, n)
      ensures Owner(key, items, roots) == Ancestor(items, key, n)
      ensures Owner(key, items, roots).Some? && Owner(key, items, roots).value in roots
    {
      OwnerReached(items, roots, key, {}, n);
    }
    if Owner(key, items, roots).Some? {
      OwnerFound(items, roots, key, {});
    }
  }

  /** A node and its known parent have the same owner, unless the node is a root itself. */
  lemma OwnerStep(items: Items, roots: set<string>, key: string)
    requires key !in roots
    ensures Owner(key, items, roots)
         == if KnownParent(items, key).Some? then Owner(KnownParent(items, key).value, items, roots) else None
  {
    OwnerExact(items, roots, key);
    var parent := KnownParent(items, key);
    if parent.Some? {
      OwnerExact(items, roots, parent.value);
      if n: nat :| RootedIn(items, roots, parent.value, n) {
        assert RootedIn(items, roots, key, n + 1);
      }
      if n: nat :| RootedIn(items, roots, key, n) {
        assert RootedIn(items, roots, parent.value, n - 1);
      }
    }
  }

  /** Nodes whose owner is one of the roots. */
  function Owned(items: Items, roots: set<string>): set<string> {
    set key | key in items && Owner(key, items, roots).Some?
  }

  function Children(items: seq<Item>, closure: set<string>): set<string> {
    set item | item in items && item.parent.Some? && item.parent.value in closure :: item.key
  }

  /** `key` belongs to an item that hangs `n` parent links below a root. */
  ghost predicate Descends(items: seq<Item>, roots: set<string>, key: string, n: nat)
    decreases n
  {
    if n == 0 then key in roots
    else exists item :: item in items && item.key == key && item.parent.Some?
                        && Descends(items, roots, item.parent.value, n - 1)
  }

  ghost predicate Descendant(items: seq<Item>, roots: set<string>, key: string) {
    exists n: nat :: Descends(items, roots, key, n)
  }

  /** `_descendant_closure`: add children until nothing changes. */
  method DescendantClosure(items: seq<Item>, roots: set<string>) returns (closure: set<string>)
    ensures forall key :: key in closure <==> Descendant(items, roots, key)
    ensures UniqueKeys(items) && roots <= Keys(items) ==> closure == Owned(ByKey(items), roots)
  {
    hide Owner, UniqueKeys, Children, Owned, Descendant;
    closure := roots;
    ghost var everything := Keys(items) + roots;
    RootsDescend(items, roots);
    while true
      invariant roots <= closure <= everything
      invariant forall key :: key in closure ==> Descendant(items, roots, key)
      decreases everything - closure
    {
      var expanded := closure + Children(items, closure);
      ChildrenDescend(items, roots, closure);
      if expanded == closure {
        forall key | Descendant(items, roots, key) ensures key in closure {
          ClosedUnderChildren(items, roots, closure, key);
        }
        if UniqueKeys(items) && roots <= Keys(items) {
          DescendantsOwned(items, roots, closure);
        }
        return;
      }
      assert everything - expanded < everything - closure by {
        var key :| key in expanded && key !in closure;
        assert key in everything - closure;
      }
      closure := expanded;
    }
  }

  lemma RootsDescend(items: seq<Item>, roots: set<string>)
    ensures forall key :: key in roots ==> Descendant(items, roots, key)
  {
    forall key | key in roots ensures Descendant(items, roots, key) {
      assert Descends(items, roots, key, 0);
    }
  }

  lemma ChildrenDescend(items: seq<Item>, roots: set<string>, closure: set<string>)
    requires forall key :: key in closure ==> Descendant(items, roots, key)
    ensures Children(items, closure) <= Keys(items)
    ensures forall key :: key in Children(items, closure) ==> Descendant(items, roots, key)
  {
    forall key | key in Children(items, closure) ensures Descendant(items, roots, key) {
      var item :| item in items && item.key == key && item.parent.Some? && item.parent.value in closure;
      var n: nat :| Descends(items, roots, item.parent.value, n);
      assert Descends(items, roots, key, n + 1);
    }
  }

  lemma ClosedUnderChildren(items: seq<Item>, roots: set<string>, closure: set<string>, key: string)
    requires roots <= closure && Children(items, closure) <= closure && Descendant(items, roots, key)
    ensures key in closure
  {
    var n: nat :| Descends(items, roots, key, n);
    Climb(items, roots, closure, key, n);
  }

  lemma {:induction false} Climb(items: seq<Item>, roots: set<string>, closure: set<string>, key: string, n: nat)
    requires roots <= closure && Children(items, closure) <= closure && Descends(items, roots, key, n)
    ensures key in closure
    decreases n
  {
    if n > 0 {
      var item :| item in items && item.key == key && item.parent.Some? && Descends(items, roots, item.parent.value, n - 1);
      Climb(items, roots, closure, item.parent.value, n - 1);
      assert key in Children(items, closure);
    }
  }

  /** With unique keys the downward closure is what the upward walk finds. */
  lemma DescendantsOwned(items: seq<Item>, roots: set<string>, closure: set<string>)
    requires UniqueKeys(items) && roots <= Keys(items)
    requires forall key :: key in closure <==> Descendant(items, roots, key)
    ensures closure == Owned(ByKey(items), roots)
  {
    hide UniqueKeys, Owner, Descendant;
    var byKey := ByKey(items);
    forall key | key in closure ensures key in Owned(byKey, roots) {
      hide Owned;
      DescendantRooted(items, roots, key);
    }
    forall key | key in Owned(byKey, roots) ensures key in closure {
      OwnerExact(byKey, roots, key);
      var n: nat :| RootedIn(byKey, roots, key, n);
      RootedDescends(items, roots, key, n);
    }
  }

  lemma {:induction false} RootedDescends(items: seq<Item>, roots: set<string>, key: string, n: nat)
    requires RootedIn(ByKey(items), roots, key, n)
    ensures Descendant(items, roots, key)
    decreases n
  {
    if n == 0 {
      assert Descends(items, roots, key, 0);
    } else {
      var parent := KnownParent(ByKey(items), key).value;
      RootedDescends(items, roots, parent, n - 1);
      var m: nat :| Descends(items, roots, parent, m);
      assert ByKey(items)[key] in items;
      assert Descends(items, roots, key, m + 1);
    }
  }

  lemma DescendantRooted(items: seq<Item>, roots: set<string>, key: string)
    requires UniqueKeys(items) && roots <= Keys(items) && Descendant(items, roots, key)
    ensures key in Owned(ByKey(items), roots)
  {
    hide UniqueKeys, Owned;
    var n: nat :| Descends(items, roots, key, n);
    DescendsOwned(items, roots, key, n);
  }

  lemma {:induction false} DescendsOwned(items: seq<Item>, roots: set<string>, key: string, n: nat)
    requires UniqueKeys(items) && roots <= Keys(items) && Descends(items, roots, key, n)
    ensures key in Owned(ByKey(items), roots)
    decreases n
  {
    hide UniqueKeys, Owner;
    var byKey := ByKey(items);
    if key in roots {
      assert RootedIn(byKey, roots, key, 0);
      OwnerExact(byKey, roots, key);
    } else {
      var item :| item in items && item.key == key && item.parent.Some? && Descends(items, roots, item.parent.value, n - 1);
      DescendsOwned(items, roots, item.parent.value, n - 1);
      ByKeyUnique(items, item);
      OwnerStep(byKey, roots, key);
    }
  }
}
