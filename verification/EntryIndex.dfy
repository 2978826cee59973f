/** A hashed index with the entries that its links belong to. */
module EntryIndex {
  import opened RbShape
  import opened RbHeap
  import opened CacheIndex
  import M = CacheModel
  import T = TimeIndex

  type Id = M.Id
  type ById = map<Id, Name>

  /** The index `names` holds the entries of `byId` under their names. */
  ghost predicate Carries(names: map<Link, Name>, byId: ById, links: map<Id, Link>, owner: T.Ids) {
    && T.Embedded(links, owner) && links.Keys == byId.Keys && owner.Keys == names.Keys
    && (forall id :: id in byId ==> links[id] in names && names[links[id]] == byId[id])
  }

  lemma {:induction false} AddCarries(names: map<Link, Name>, byId: ById, links: map<Id, Link>, owner: T.Ids,
                                      id: Id, x: Link, name: Name)
    requires Carries(names, byId, links, owner) && id !in links && x !in owner
    ensures Carries(names[x := name], byId[id := name], links[id := x], owner[x := id])
  {
  }

  lemma {:induction false} RemoveCarries(names: map<Link, Name>, byId: ById, links: map<Id, Link>, owner: T.Ids,
                                         x: Link)
    requires Carries(names, byId, links, owner) && x in owner
    ensures Carries(names - {x}, byId - {owner[x]}, links - {owner[x]}, owner - {x})
  {
  }

  lemma {:induction false} NameOf(names: map<Link, Name>, byId: ById, links: map<Id, Link>, owner: T.Ids, x: Link)
    requires Carries(names, byId, links, owner) && x in names
    ensures x in owner && owner[x] in byId && byId[owner[x]] == names[x]
  {
    var id := owner[x];
    assert id in byId && links[id] == x;
  }

  ghost predicate Taken(byId: ById, name: Name) { exists id :: id in byId && byId[id] == name }

  lemma {:induction false} NameFree(names: map<Link, Name>, byId: ById, links: map<Id, Link>, owner: T.Ids, name: Name)
    requires Carries(names, byId, links, owner)
    ensures name in names.Values <==> Taken(byId, name)
  {
    if name in names.Values {
      var x :| x in names && names[x] == name;
      NameOf(names, byId, links, owner, x);
      var id := owner[x];
      assert byId[id] == name;
    }
    if Taken(byId, name) {
      var id :| id in byId && byId[id] == name;
      assert names[links[id]] == name;
    }
  }

  /** In an index no two entries have the same name, however the names are hashed. */
  lemma {:induction false} OneName(index: HashIndex, byId: ById, links: map<Id, Link>, owner: T.Ids, a: Id, b: Id)
    requires index.Valid() && Carries(index.names, byId, links, owner)
    requires a in byId && b in byId && byId[a] == byId[b]
    ensures a == b
  {
    var i := Listed(index.tree.shape, links[a]);
    var j := Listed(index.tree.shape, links[b]);
    var s := InOrder(index.tree.shape);
    if i < j {
      NamesDistinct(s, index.names, index.hash, i, j);
    } else if j < i {
      NamesDistinct(s, index.names, index.hash, j, i);
    }
  }

  /** `r` is the entry of that name, if there is one: the only one. */
  ghost predicate Finds(byId: ById, name: Name, r: M.Option<Id>) {
    if r.None? then !Taken(byId, name)
    else r.value in byId && byId[r.value] == name && forall id :: id in byId && byId[id] == name ==> id == r.value
  }

  class Shelf {
    const index: HashIndex
    var links: map<Id, Link>
    var owner: T.Ids
    ghost var names: ById

    ghost function Repr(): set<object>
      reads this
    {
      {this, index, index.tree} + owner.Keys
    }

    ghost predicate Valid()
      reads this, Repr()
    {
      Carries(index.names, names, links, owner) && owner.Keys == Links(index.tree.shape) && index.Valid()
    }

    constructor (hash: Name -> nat)
      ensures Valid() && names == map[] && fresh(Repr())
    {
      index := new HashIndex(hash);
      links, owner, names := map[], map[], map[];
    }

    /** The entry of that name, if there is one: whatever the hash does. */
    method Find(name: Name) returns (r: M.Option<Id>)
      requires Valid()
      ensures Valid() && Finds(names, name, r)
    {
      NameFree(index.names, names, links, owner, name);
      assert allocated(Repr());
      var x := index.Find(name);
      if x == null {
        return M.None;
      }
      NameOf(index.names, names, links, owner, x);
      var id := owner[x];
      forall y | y in names && names[y] == name ensures y == id {
        OneName(index, names, links, owner, y, id);
      }
      return M.Some(id);
    }

    /** A new entry, with a name that is not in use. */
    method Add(id: Id, name: Name)
      requires Valid() && id !in names && !Taken(names, name)
      modifies Repr()
      ensures Valid() && names == old(names)[id := name] && fresh(Repr() - old(Repr()))
    {
      var x := new Link();
      NameFree(index.names, names, links, owner, name);
      AddCarries(index.names, names, links, owner, id, x, name);
      RootIsMember(index.tree);
      links, owner := links[id := x], owner[x := id];
      names := names[id := name];
      var status := index.Add(x, name);
    }

    /** Take an entry out of the index, if it is in it. */
    method Remove(id: Id)
      requires Valid()
      modifies Repr()
      ensures Valid() && names == old(names) - {id} && Repr() <= old(Repr())
    {
      if id in links {
        TakeOut(id);
      } else {
        assert names - {id} == names;
      }
    }

    method TakeOut(id: Id)
      requires Valid() && id in links
      modifies Repr()
      ensures Valid() && names == old(names) - {id} && Repr() <= old(Repr())
    {
      var x := links[id];
      RemoveCarries(index.names, names, links, owner, x);
      links, owner := links - {id}, owner - {x};
      names := names - {id};
      index.Remove(x);
    }
  }
}
