/** The hashed indices of the custody cache: keys may collide, the comparators decide. */
module CacheIndex {
  import opened RbShape
  import opened RbHeap
  import opened RbInsert
  import opened RbSearch
  import RbDelete

  /** What identifies an entry: sequence number and flow of a bundle, custodian and flow of an acknowledgement. */
  type Name = seq<int>

  /** The comparators: number by number, the first difference decides. */
  function CompareNames(a: Name, b: Name): int {
    if a == [] && b == [] then 0
    else if a == [] then -1
    else if b == [] then 1
    else if a[0] == b[0] then CompareNames(a[1..], b[1..])
    else CompareKey(a[0], b[0])
  }

  lemma {:induction false} CompareEqual(a: Name, b: Name)
    ensures CompareNames(a, b) == 0 <==> a == b
    decreases |a|
  {
    if a != [] && b != [] {
      CompareEqual(a[1..], b[1..]);
      assert a == [a[0]] + a[1..] && b == [b[0]] + b[1..];
    }
  }

  /** The comparison is a total order: what is above `b` is above everything below `b`. */
  lemma {:induction false} CompareChain(a: Name, b: Name, c: Name)
    requires CompareNames(a, b) >= 0 && CompareNames(b, c) > 0
    ensures CompareNames(a, c) > 0
    decreases |a|
  {
    if a != [] && b != [] && c != [] && a[0] == b[0] == c[0] {
      CompareChain(a[1..], b[1..], c[1..]);
    }
  }

  lemma {:induction false} CompareOpposite(a: Name, b: Name)
    ensures CompareNames(a, b) > 0 <==> CompareNames(b, a) < 0
    decreases |a|
  {
    if a != [] && b != [] && a[0] == b[0] {
      CompareOpposite(a[1..], b[1..]);
    }
  }

  /** The order of an index: by hash, then by name, without repetition. */
  ghost predicate Indexed(s: seq<Entry>, names: map<Link, Name>, hash: Name -> nat) {
    && (forall i :: 0 <= i < |s| ==> s[i].link in names && s[i].key == hash(names[s[i].link]) % KEY_LIMIT)
    && (forall i, j :: 0 <= i < j < |s| ==>
          s[i].key < s[j].key || (s[i].key == s[j].key && CompareNames(names[s[j].link], names[s[i].link]) > 0))
  }

  function Matcher(names: map<Link, Name>, name: Name): Comparator {
    Secondary((x: Link) => if x in names then CompareNames(name, names[x]) else 0)
  }

  /** In an indexed order the comparator points the right way everywhere. */
  lemma MatcherGuides(s: seq<Entry>, names: map<Link, Name>, hash: Name -> nat, name: Name)
    requires Indexed(s, names, hash)
    ensures Guides(Matcher(names, name), hash(name) % KEY_LIMIT, s)
  {
    var key := hash(name) % KEY_LIMIT;
    forall i, j | 0 <= i < j < |s| && s[i].key == s[j].key == key
      ensures CompareNames(name, names[s[j].link]) > 0 ==> CompareNames(name, names[s[i].link]) > 0
      ensures CompareNames(name, names[s[i].link]) < 0 ==> CompareNames(name, names[s[j].link]) < 0
    {
      var a, b := names[s[i].link], names[s[j].link];
      if CompareNames(name, b) > 0 {
        CompareChain(name, b, a);
      }
      if CompareNames(name, a) < 0 {
        CompareOpposite(a, name);
        CompareOpposite(b, name);
        CompareChain(b, a, name);
      }
    }
  }

  /** A match is an entry with that name. */
  lemma MatchIsName(e: Entry, names: map<Link, Name>, hash: Name -> nat, name: Name)
    requires e.link in names && e.key == hash(names[e.link]) % KEY_LIMIT
    ensures Verdict(Matcher(names, name), hash(name) % KEY_LIMIT, e) == 0 <==> names[e.link] == name
  {
    CompareEqual(name, names[e.link]);
  }

  /** Inserting where the comparator points keeps the order. */
  lemma InsertIndexed(w: Tree, w': Tree, at: nat, x: Link, name: Name, names: map<Link, Name>, hash: Name -> nat,
                      key: nat, cmp: Comparator)
    requires Indexed(InOrder(w), names, hash) && x !in Links(w)
    requires key == hash(name) % KEY_LIMIT && cmp == Matcher(names, name)
    ensures InsertedAt(InOrder(w), InOrder(w'), at, Entry(x, key)) && Fits(cmp, key, InOrder(w), at, at) ==>
      Indexed(InOrder(w'), names[x := name], hash)
  {
    var s := InOrder(w);
    InOrderLinks(w);
    if InsertedAt(s, InOrder(w'), at, Entry(x, key)) && Fits(cmp, key, s, at, at) {
      Separates(s, at, name, names, hash, key, cmp);
      InsertApart(s, InOrder(w'), at, x, name, names, hash, key);
    }
  }

  /** The name belongs between the entries before and those from `at` on. */
  ghost predicate Between(s: seq<Entry>, at: nat, key: nat, name: Name, names: map<Link, Name>) {
    && (forall k :: 0 <= k < |s| ==> s[k].link in names)
    && (forall k :: 0 <= k < at && k < |s| ==>
      s[k].key < key || (s[k].key == key && CompareNames(name, names[s[k].link]) > 0))
    && (forall k :: at <= k < |s| ==> key < s[k].key || (s[k].key == key && CompareNames(names[s[k].link], name) > 0))
  }

  lemma Separates(s: seq<Entry>, at: nat, name: Name, names: map<Link, Name>, hash: Name -> nat, key: nat,
                  cmp: Comparator)
    requires Indexed(s, names, hash) && key == hash(name) % KEY_LIMIT
    requires cmp == Matcher(names, name) && Fits(cmp, key, s, at, at)
    ensures Between(s, at, key, name, names)
  {
    MatcherGuides(s, names, hash, name);
    forall k | at <= k < |s| && s[k].key == key ensures CompareNames(names[s[k].link], name) > 0 {
      assert Verdict(cmp, key, s[k]) < 0;
      CompareOpposite(names[s[k].link], name);
    }
    forall k | 0 <= k < at && s[k].key == key ensures CompareNames(name, names[s[k].link]) > 0 {
      assert Verdict(cmp, key, s[k]) > 0;
    }
  }

  lemma InsertApart(s: seq<Entry>, s': seq<Entry>, at: nat, x: Link, name: Name, names: map<Link, Name>,
                    hash: Name -> nat, key: nat)
    requires Indexed(s, names, hash) && InsertedAt(s, s', at, Entry(x, key)) && Between(s, at, key, name, names)
    requires key == hash(name) % KEY_LIMIT && forall k :: 0 <= k < |s| ==> s[k].link != x
    ensures Indexed(s', names[x := name], hash)
  {
  }

  /** In an indexed order no name occurs twice. */
  lemma NamesDistinct(s: seq<Entry>, names: map<Link, Name>, hash: Name -> nat, i: nat, j: nat)
    requires Indexed(s, names, hash) && i < j < |s|
    ensures names[s[i].link] != names[s[j].link]
  {
    CompareEqual(names[s[j].link], names[s[i].link]);
  }

  /** Every link of a tree has a place in its order. */
  lemma Listed(t: Tree, x: Link) returns (i: nat)
    requires x in Links(t)
    ensures i < |InOrder(t)| && InOrder(t)[i].link == x
  {
    LocateFinds(t, x, Top);
    var (c, sub) := Locate(t, x, Top);
    Middle(c, sub);
    i := Mid(c, sub);
  }

  /** The comparator guides, and it finds a match exactly if the name is in the index. */
  lemma NameMatches(w: Tree, names: map<Link, Name>, hash: Name -> nat, name: Name)
    requires Indexed(InOrder(w), names, hash) && names.Keys == Links(w)
    ensures var s, cmp, key := InOrder(w), Matcher(names, name), hash(name) % KEY_LIMIT;
      && Guides(cmp, key, s)
      && (forall i :: 0 <= i < |s| && Verdict(cmp, key, s[i]) == 0 ==> s[i].link in names && names[s[i].link] == name)
      && (name in names.Values <==> exists i :: 0 <= i < |s| && Verdict(cmp, key, s[i]) == 0)
  {
    var s, cmp, key := InOrder(w), Matcher(names, name), hash(name) % KEY_LIMIT;
    MatcherGuides(s, names, hash, name);
    forall i | 0 <= i < |s| ensures Verdict(cmp, key, s[i]) == 0 <==> names[s[i].link] == name {
      MatchIsName(s[i], names, hash, name);
    }
    if name in names.Values {
      var y :| y in names && names[y] == name;
      var i := Listed(w, y);
      assert Verdict(cmp, key, s[i]) == 0;
    }
  }

  class HashIndex {
    const tree: RbRoot
    const hash: Name -> nat
    var names: map<Link, Name>

    ghost predicate Valid()
      reads this, tree, Links(tree.shape)
    {
      tree.Valid() && names.Keys == Links(tree.shape) && Indexed(InOrder(tree.shape), names, hash)
    }

    constructor (hash: Name -> nat)
      ensures Valid() && names == map[] && fresh(tree) && this.hash == hash
    {
      tree := new RbRoot();
      this.hash := hash;
      names := map[];
    }

    /** The link of that name, if there is one: whatever the hash does. */
    method Find(name: Name) returns (x: Link?)
      requires Valid()
      ensures x != null ==> x in names && names[x] == name
      ensures x == null ==> name !in names.Values
    {
      NameMatches(tree.shape, names, hash, name);
      ghost var at, steps;
      x, at, steps := Search(tree, hash(name) % KEY_LIMIT, Matcher(names, name));
    }

    /** Add a free link under a name; a name that is taken is not added again. */
    method Add(x: Link, name: Name) returns (status: Status)
      requires Valid() && x != tree.root && x.parent == null && x.left == null && x.right == null
      modifies this, tree, Links(tree.shape), x
      ensures Valid() && !status.Error?
      ensures status.Duplicate? <==> name in old(names).Values
      ensures names == if status.Success? then old(names)[x := name] else old(names)
    {
      ghost var w, was := tree.shape, names;
      assert x !in Links(w) by {
        if x in Links(w) {
          MemberAttached(tree, x);
        }
      }
      NameMatches(w, names, hash, name);
      var key, cmp := hash(name) % KEY_LIMIT, Matcher(names, name);
      assert key % KEY_LIMIT == key;
      ghost var at;
      status, at := InsertValue(tree, key, x, cmp);
      InsertIndexed(w, tree.shape, at, x, name, names, hash, key, cmp);
      if status == Success {
        names := names[x := name];
      }
    }

    /** Take a link out of the index. */
    method Remove(x: Link)
      requires Valid() && x in names
      modifies this, tree, Links(tree.shape)
      ensures Valid() && names == old(names) - {x} && x.Zeroed()
    {
      ghost var w := tree.shape;
      InOrderLinks(w);
      var found; ghost var at;
      found, at := RbDelete.ExtractNode(tree, x);
      RemoveIndexed(InOrder(w), at, x, names, hash);
      names := names - {x};
    }
  }

  lemma RemoveIndexed(s: seq<Entry>, at: nat, x: Link, names: map<Link, Name>, hash: Name -> nat)
    requires Indexed(s, names, hash) && at < |s| && s[at].link == x
    requires forall i, j :: 0 <= i < j < |s| ==> s[i].link != s[j].link
    ensures Indexed(RbDelete.RemoveAt(s, at), names - {x}, hash)
  {
  }
}
