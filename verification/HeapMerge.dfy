/**
 `deepMerge` on the heap: nested maps are objects that the loop updates in place or takes over from the
 source. On separate trees it computes the merge of the values they stand for, changes no object of the
 source, and leaves a destination that may share objects with the source but is still a tree.
 */
module HeapMerge {
  import opened ValueMerge

  datatype Slot = Leaf(value: Json) | Nested(node: Node)

  /** A Go map: its entries, and as ghost state all maps it reaches. */
  class Node {
    var fields: map<string, Slot>
    ghost var repr: set<Node>

    ghost predicate Valid()
      reads this, repr
      decreases repr
    {
      && this in repr
      && (forall k :: k in fields && fields[k].Leaf? ==> !fields[k].value.Object?)
      && (forall k :: k in fields && fields[k].Nested? ==>
            fields[k].node in repr && fields[k].node.repr <= repr && this !in fields[k].node.repr
                && fields[k].node.Valid())
      && (forall j, k :: j in fields && k in fields && j != k && fields[j].Nested? && fields[k].Nested? ==>
            fields[j].node.repr !! fields[k].node.repr)
    }

    ghost function Value(k: string): Json
      requires Valid() && k in fields
      reads this, repr
      decreases repr, 0
    {
      if fields[k].Leaf? then fields[k].value else Object(fields[k].node.Contents())
    }

    ghost function Contents(): Fields
      requires Valid()
      reads this, repr
      decreases repr, 1
    {
      map k | k in fields :: Value(k)
    }
  }

  ghost function Child(n: Node, k: string): set<Node>
    reads n, if k in n.fields && n.fields[k].Nested? then {n.fields[k].node} else {}
  {
    if k in n.fields && n.fields[k].Nested? then n.fields[k].node.repr else {}
  }

  /** What callers need of a valid tree without unfolding it. */
  lemma Parts(n: Node)
    requires n.Valid()
    ensures n in n.repr && n.Contents().Keys == n.fields.Keys
    ensures forall k :: n !in Child(n, k) && Child(n, k) <= n.repr
    ensures forall k :: k in n.fields && n.fields[k].Nested? ==>
              n.fields[k].node.Valid() && n.fields[k].node in Child(n, k)
    ensures forall j, k :: j != k ==> Child(n, j) !! Child(n, k)
    ensures forall k :: k in n.fields ==>
              n.Contents()[k] == if n.fields[k].Leaf? then n.fields[k].value else Object(n.fields[k].node.Contents())
    ensures forall k :: k in n.fields && n.fields[k].Leaf? ==> !n.fields[k].value.Object?
  {
  }

  /** Entry `j` holds the value `v` in a subtree of its own. */
  ghost predicate Piece(n: Node, j: string, v: Json)
    reads n, Child(n, j)
    reads if j in n.fields && n.fields[j].Nested? then {n.fields[j].node} else {}
  {
    && j in n.fields
    && (n.fields[j].Leaf? ==> !v.Object? && n.fields[j].value == v)
    && (n.fields[j].Nested? ==>
          var c := n.fields[j].node;
          c in c.repr && c.repr <= n.repr && n !in c.repr && c.Valid() && v == Object(c.Contents()))
  }

  /** The converse: pieces that fit make a valid tree of their values. */
  lemma Whole(n: Node, values: Fields)
    requires n in n.repr && n.fields.Keys == values.Keys && forall j :: j in values ==> Piece(n, j, values[j])
    requires forall j, k :: j != k ==> Child(n, j) !! Child(n, k)
    ensures n.Valid() && n.Contents() == values
  {
    assert forall j :: j in n.fields ==> Piece(n, j, values[j]);
    forall j, k | j in n.fields && k in n.fields && j != k && n.fields[j].Nested? && n.fields[k].Nested?
      ensures n.fields[j].node.repr !! n.fields[k].node.repr
    {
      assert Child(n, j) !! Child(n, k);
    }
  }

  /** Both sides have a nested map: merge into it. */
  method MergeNested(dst: Node, src: Node, k: string)
    requires dst.Valid() && src.Valid() && k in src.fields
    requires src !in dst.repr && dst !in src.repr && Child(src, k) !! dst.repr && Child(dst, k) !! src.repr
    requires src.fields[k].Nested? && k in dst.fields && dst.fields[k].Nested?
    modifies dst, Child(dst, k)
    ensures dst.Valid() && src.Valid() && src.Contents() == old(src.Contents())
    ensures dst.Contents() == old(dst.Contents())[k := Merged(old(dst.Contents()), old(src.Contents()), k)]
    ensures dst.repr <= old(dst.repr) + Child(src, k)
    ensures forall j :: j != k ==> (j in dst.fields <==> j in old(dst.fields)) && Child(dst, j) == old(Child(dst, j))
    decreases src.repr, 0
  {
    hide Node.Valid, Node.Contents, Node.Value, Merge;
    Parts(dst);
    Parts(src);
    ghost var was := dst.Contents();
    DeepMerge(dst.fields[k].node, src.fields[k].node);
    dst.repr := dst.repr + Child(src, k);
    assert Child(dst, k) <= old(Child(dst, k)) + Child(src, k);
    assert Piece(dst, k, Merged(was, old(src.Contents()), k));
    ghost var values := was[k := Merged(was, old(src.Contents()), k)];
    forall j | j != k
      ensures (j in dst.fields <==> j in old(dst.fields)) && Child(dst, j) == old(Child(dst, j))
      ensures j in values ==> Piece(dst, j, values[j])
    {
      assert old(Child(dst, j)) !! old(Child(dst, k));
    }
    Whole(dst, values);
  }

  /** Otherwise the source's entry is taken over. */
  method TakeOver(dst: Node, src: Node, k: string)
    requires dst.Valid() && src.Valid() && k in src.fields
    requires src !in dst.repr && dst !in src.repr && Child(src, k) !! dst.repr && Child(dst, k) !! src.repr
    requires !(src.fields[k].Nested? && k in dst.fields && dst.fields[k].Nested?)
    modifies dst
    ensures dst.Valid() && src.Valid() && src.Contents() == old(src.Contents())
    ensures dst.Contents() == old(dst.Contents())[k := Merged(old(dst.Contents()), old(src.Contents()), k)]
    ensures dst.repr <= old(dst.repr) + Child(src, k)
    ensures forall j :: j != k ==> (j in dst.fields <==> j in old(dst.fields)) && Child(dst, j) == old(Child(dst, j))
  {
    hide Node.Valid, Node.Contents, Node.Value;
    Parts(dst);
    Parts(src);
    ghost var was := dst.Contents();
    dst.fields := dst.fields[k := src.fields[k]];
    dst.repr := dst.repr + Child(src, k);
    ghost var values := was[k := Merged(was, old(src.Contents()), k)];
    forall j | j != k
      ensures (j in dst.fields <==> j in old(dst.fields)) && Child(dst, j) == old(Child(dst, j))
      ensures j in values ==> Piece(dst, j, values[j])
    {
      assert old(Child(dst, j)) !! old(Child(dst, k));
    }
    Whole(dst, values);
  }

  /** One iteration. */
  method MergeKey(dst: Node, src: Node, k: string)
    requires dst.Valid() && src.Valid() && k in src.fields
    requires src !in dst.repr && dst !in src.repr && Child(src, k) !! dst.repr && Child(dst, k) !! src.repr
    modifies dst, Child(dst, k)
    ensures dst.Valid() && src.Valid() && src.Contents() == old(src.Contents())
    ensures dst.Contents() == old(dst.Contents())[k := Merged(old(dst.Contents()), old(src.Contents()), k)]
    ensures dst.repr <= old(dst.repr) + Child(src, k)
    ensures forall j :: j != k ==> (j in dst.fields <==> j in old(dst.fields)) && Child(dst, j) == old(Child(dst, j))
    decreases src.repr, 1
  {
    if src.fields[k].Nested? && k in dst.fields && dst.fields[k].Nested? {
      MergeNested(dst, src, k);
    } else {
      TakeOver(dst, src, k);
    }
  }

  ghost function Merged(dst: Fields, src: Fields, k: string): Json
    requires k in src
  {
    if k in dst then MergeValue(dst[k], src[k]) else src[k]
  }

  /** What the loop has done when the keys in `todo` are left: `before` are the objects of the destination
      when it started, `was` and `patch` the values then. */
  ghost predicate Progress(dst: Node, src: Node, todo: set<string>, before: set<Node>, was: Fields, patch: Fields)
    reads dst, dst.repr, src, src.repr
  {
    && dst.Valid() && src.Valid() && src.Contents() == patch && todo <= patch.Keys == src.fields.Keys
    && dst in before && before !! src.repr && dst in dst.repr && dst.repr <= before + src.repr && src !in dst.repr
    && dst !in src.repr
    && (forall k :: k in todo ==> Child(src, k) !! dst.repr && Child(dst, k) <= before)
    && dst.Contents() == MergeKeys(was, Object(patch), patch.Keys - todo)
  }

  method Step(dst: Node, src: Node, k: string, ghost todo: set<string>, ghost before: set<Node>, ghost was: Fields,
              ghost patch: Fields)
    requires Progress(dst, src, todo, before, was, patch) && k in todo
    modifies before
    ensures Progress(dst, src, todo - {k}, before, was, patch) && src.repr == old(src.repr)
    decreases src.repr, 2
  {
    hide Node.Valid, Node.Contents, Node.Value, Merge, MergeKeys;
    Parts(src);
    MergeKeysStep(was, Object(patch), patch.Keys - todo, k);
    MergeKey(dst, src, k);
    assert patch.Keys - (todo - {k}) == (patch.Keys - todo) + {k};
  }

  method DeepMerge(dst: Node, src: Node)
    requires dst.Valid() && src.Valid() && dst.repr !! src.repr
    modifies dst.repr
    ensures dst.Valid() && src.Valid() && src.Contents() == old(src.Contents())
    ensures dst.Contents() == Merge(old(dst.Contents()), Object(old(src.Contents())))
    ensures dst in dst.repr && dst.repr <= old(dst.repr) + src.repr
    decreases src.repr, 3
  {
    ghost var before, was, patch := dst.repr, dst.Contents(), src.Contents();
    var todo := src.fields.Keys;
    Start(dst, src);
    hide Progress;
    while todo != {}
      invariant Progress(dst, src, todo, before, was, patch) && src.repr == old(src.repr)
      decreases |todo|
    {
      var k :| k in todo;
      Step(dst, src, k, todo, before, was, patch);
      todo := todo - {k};
    }
    Finish(dst, src, before, was, patch);
  }

  lemma Start(dst: Node, src: Node)
    requires dst.Valid() && src.Valid() && dst.repr !! src.repr
    ensures Progress(dst, src, src.fields.Keys, dst.repr, dst.Contents(), src.Contents())
  {
    Parts(dst);
    Parts(src);
    MergeKeysEnds(dst.Contents(), Object(src.Contents()));
    assert src.Contents().Keys - src.fields.Keys == {};
  }

  lemma Finish(dst: Node, src: Node, before: set<Node>, was: Fields, patch: Fields)
    requires Progress(dst, src, {}, before, was, patch)
    ensures dst.Valid() && src.Valid() && src.Contents() == patch && dst.Contents() == Merge(was, Object(patch))
    ensures dst in dst.repr && dst.repr <= before + src.repr
  {
    MergeKeysEnds(was, Object(patch));
    assert patch.Keys - {} == patch.Keys;
  }
}
