/**
 Nested database transactions: writes are kept in memory as set and delete operations over a parent store,
 reads merge them with the parent, and a commit replays them into the parent.
 */
module Stores {
  import opened Options

  datatype Op<V> = Delete | Put(value: V)

  /** What a store with pending operations shows. */
  function Overlay<K, V>(base: map<K, V>, ops: map<K, Op<V>>): map<K, V> {
    map k | k in base.Keys + ops.Keys && (k in ops ==> ops[k].Put?) :: if k in ops then ops[k].value else base[k]
  }

  function Lookup<K, V>(view: map<K, V>, k: K): Option<V> {
    if k in view then Some(view[k]) else None
  }

  /** The view after one operation. */
  function Written<K, V>(view: map<K, V>, k: K, op: Op<V>): map<K, V> {
    match op
    case Delete => view - {k}
    case Put(v) => view[k := v]
  }

  /** Adding an operation on top acts on the view. */
  lemma OverlayOfUpdate<K, V>(base: map<K, V>, ops: map<K, Op<V>>, k: K, op: Op<V>)
    ensures Overlay(base, ops[k := op]) == Written(Overlay(base, ops), k, op)
  {
  }

  /** Operations on distinct keys can be applied one at a time. */
  lemma OverlayOneAtATime<K, V>(base: map<K, V>, ops: map<K, Op<V>>, k: K)
    requires k in ops
    ensures Overlay(Written(base, k, ops[k]), ops - {k}) == Overlay(base, ops)
  {
  }

  lemma OverlayOfNothing<K, V>(base: map<K, V>)
    ensures Overlay(base, map[]) == base
  {
  }

  /** A database transaction over a parent store, or the bottom store itself. */
  class Txn<K(==), V> {
    const parent: Txn?<K, V>
    var ops: map<K, Op<V>>
    ghost const repr: set<object>

    ghost predicate Valid()
      reads this, repr
      decreases repr
    {
      && this in repr
      && (parent == null ==> repr == {this})
      && (parent != null ==> parent in repr && this !in parent.repr && repr == parent.repr + {this} && parent.Valid())
    }

    /** The contents as a plain map. */
    ghost function View(): map<K, V>
      requires Valid()
      reads this, repr
      decreases repr
    {
      Overlay(if parent == null then map[] else parent.View(), ops)
    }

    constructor Bottom(contents: map<K, V>)
      ensures Valid() && fresh(repr) && parent == null
      ensures View() == contents
    {
      parent, repr := null, {this};
      ops := map k | k in contents :: Put(contents[k]);
    }

    constructor Over(store: Txn<K, V>)
      requires store.Valid()
      ensures Valid() && fresh(this) && repr == store.repr + {this} && parent == store
      ensures View() == store.View()
    {
      parent, repr, ops := store, store.repr + {this}, map[];
      new;
      OverlayOfNothing(store.View());
    }

    method Get(k: K) returns (v: Option<V>)
      requires Valid()
      ensures v == Lookup(View(), k)
      decreases repr
    {
      if k in ops {
        return if ops[k].Put? then Some(ops[k].value) else None;
      }
      if parent == null {
        return None;
      }
      v := parent.Get(k);
    }

    method Update(k: K, op: Op<V>)
      requires Valid()
      modifies this
      ensures Valid() && View() == Written(old(View()), k, op)
    {
      OverlayOfUpdate(if parent == null then map[] else parent.View(), ops, k, op);
      ops := ops[k := op];
    }

    method Set(k: K, v: V)
      requires Valid()
      modifies this
      ensures Valid() && View() == old(View())[k := v]
    {
      Update(k, Put(v));
    }

    method Remove(k: K)
      requires Valid()
      modifies this
      ensures Valid() && View() == old(View()) - {k}
    {
      Update(k, Delete);
    }

    /** Applies pending operations one by one, in any order. */
    method Replay(pending: map<K, Op<V>>)
      requires Valid()
      modifies this
      ensures Valid() && View() == Overlay(old(View()), pending)
    {
      var rest := pending;
      while rest != map[]
        invariant Valid() && Overlay(View(), rest) == Overlay(old(View()), pending)
        decreases |rest|
      {
        var k :| k in rest;
        OverlayOneAtATime(View(), rest, k);
        Update(k, rest[k]);
        rest := rest - {k};
      }
      OverlayOfNothing(View());
    }

    /** Flushes the operations into the parent and forgets them. */
    method Commit()
      requires Valid() && parent != null
      modifies this, parent
      ensures Valid() && ops == map[]
      ensures parent.View() == View() == old(View())
    {
      parent.Replay(ops);
      ops := map[];
      OverlayOfNothing(parent.View());
    }

    /** Forgets the operations: the transaction shows its parent again. */
    method Discard()
      requires Valid() && parent != null
      modifies this
      ensures Valid() && View() == parent.View()
    {
      ops := map[];
      OverlayOfNothing(parent.View());
    }
  }
}
