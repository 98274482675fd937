/** The red-black tree as the scheduler uses it: a finite map from keys to nodes. */
module TreeMap {
  import opened Entries
  import opened OrderedMap
  import opened RbRules
  import opened RbSearch
  import opened RbShape
  import opened RbTree
  import opened Zippers

  /** The map from keys to members. */
  ghost function Map(head: RbTree): map<int, Node>
    reads head
  {
    AsMap(Inorder(head.tree))
  }

  lemma MembersDiffer(t: Tree)
    requires Distinct(t) && Sorted(Inorder(t))
    ensures NodesDiffer(Inorder(t))
  {
    var s := Inorder(t);
    forall i, j | 0 <= i < j < |s|
      ensures s[i].node != s[j].node
    {
      OtherNode(t, s[i], s[j]);
    }
  }

  /** RB_FIND is a look-up. */
  method Find(head: RbTree, key: int) returns (found: Node?)
    requires head.Shaped() && Valid(head.tree)
    ensures if key in Map(head) then found == Map(head)[key] else found == null
  {
    ghost var visited;
    found, visited := RbSearch.Find(head, key);
    LookUp(Inorder(head.tree), key);
  }

  /** RB_INSERT adds a node under its key, or finds the key taken and changes nothing. */
  method Insert(head: RbTree, elm: Node) returns (found: Node?)
    requires head.Shaped() && Valid(head.tree)
    modifies head, Nodes(head.tree), elm
    ensures head.Shaped() && Valid(head.tree) && elm.key == old(elm.key)
    ensures if elm.key in old(Map(head)) then found == old(Map(head))[elm.key] && Map(head) == old(Map(head))
            else found == null && Map(head) == old(Map(head))[elm.key := elm]
  {
    ghost var s := Inorder(head.tree);
    LookUp(s, elm.key);
    ghost var k := elm.key;
    found := head.Insert(elm);
    if found == null { InsertAdds(s, Entry(elm, k)); }
  }

  /** RB_REMOVE takes the key of a member out. */
  method Remove(head: RbTree, elm: Node)
    requires head.Shaped() && Valid(head.tree) && elm.key in Map(head) && Map(head)[elm.key] == elm
    modifies head, Nodes(head.tree)
    ensures head.Shaped() && Valid(head.tree)
    ensures Map(head) == old(Map(head)) - {old(elm.key)}
  {
    ghost var s, e := Inorder(head.tree), Entry(elm, elm.key);
    LookUp(s, elm.key);
    EntryMember(head.tree, null, elm, elm.key);
    MembersDiffer(head.tree);
    RemoveTakesOut(s, e);
    var removed := head.Remove(elm);
  }

  /** RB_MIN is the member under the least key, null when there is none. */
  method Min(head: RbTree) returns (elm: Node?)
    requires head.Shaped() && Valid(head.tree)
    ensures elm == null <==> Map(head) == map[]
    ensures elm != null ==> elm.key in Map(head) && Map(head)[elm.key] == elm
    ensures elm != null ==> forall k :: k in Map(head) ==> elm.key <= k
  {
    assert allocated(Nodes(head.tree));
    elm := MinMax(head, -1);
    ghost var s := Inorder(head.tree);
    if s != [] {
      EntryMember(head.tree, null, s[0].node, s[0].key);
      assert Held(s[0].node) == FieldsAt(head.tree, null, s[0].node);
      LookUp(s, s[0].key);
      forall k | k in Map(head)
        ensures s[0].key <= k
      {
        LeastFirst(s, k);
      }
    }
  }
}
