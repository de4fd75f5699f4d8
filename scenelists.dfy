// The linked lists of lights and objects in a scene record: a head pointer
// and nodes chained through `next`. append_light and append_object are the
// same code over the two node types, so one generic list models both.
module SceneLists {
  class Node<T> {
    var value: T
    var next: Node?<T>

    /** new_light / new_object: a node holding the calloc'd record, with no successor. */
    constructor(value: T)
      ensures this.value == value && next == null
    {
      this.value := value;
      next := null;
    }
  }

  class NodeList<T> {
    /** The head pointer (`scene->lights`, `scene->objects`); null for an empty list. */
    var head: Node?<T>
    /** The nodes in list order. */
    ghost var nodes: seq<Node<T>>

    ghost function Spine(): set<object>
      reads this
    {
      set i | 0 <= i < |nodes| :: nodes[i]
    }

    /** The head is the first node, each node's next is the node after it, the last has none, and no node repeats. */
    ghost predicate Valid()
      reads this, Spine()
    {
      (head == null <==> |nodes| == 0)
      && (|nodes| > 0 ==> head == nodes[0] && nodes[|nodes| - 1].next == null)
      && (forall i :: 0 <= i < |nodes| - 1 ==> nodes[i].next == nodes[i + 1])
      && (forall i, j :: 0 <= i < j < |nodes| ==> nodes[i] != nodes[j])
    }

    /** The records the list holds, in order. */
    ghost function Contents(): seq<T>
      reads this, Spine()
    {
      Values(nodes)
    }

    /** An empty list: a null head. */
    constructor()
      ensures Valid() && nodes == [] && Contents() == []
    {
      head := null;
      nodes := [];
    }

    /**
     * append_light / append_object: a new node holding `blank` becomes the
     * tail, reached from the old tail (or becoming the head of an empty
     * list); it is returned. Earlier records are unchanged.
     */
    method Append(blank: T) returns (node: Node<T>)
      requires Valid()
      modifies this, if |nodes| > 0 then {nodes[|nodes| - 1]} else {}
      ensures Valid() && fresh(node)
      ensures nodes == old(nodes) + [node]
      ensures Contents() == old(Contents()) + [blank]
    {
      node := new Node(blank);
      if head == null {
        head := node;
        nodes := [node];
        return;
      }
      var last := head;
      ghost var k := 0;
      assert 0 < |nodes| - 1 ==> nodes[0].next == nodes[1];
      while last.next != null
        invariant Valid() && 0 <= k < |nodes| && last == nodes[k]
        invariant last.next == null <==> k == |nodes| - 1
        decreases |nodes| - k
      {
        last := last.next;
        k := k + 1;
        assert k < |nodes| - 1 ==> nodes[k].next == nodes[k + 1];
      }
      assert k == |nodes| - 1;
      ghost var before := nodes;
      last.next := node;
      nodes := nodes + [node];
      ValuesUnchanged(before, nodes, node);
    }

    /** get_num_lights / get_num_objects: the number of records, counted by walking the list. */
    method Count() returns (n: nat)
      requires Valid()
      ensures n == |Contents()|
    {
      var cur := head;
      n := 0;
      while cur != null
        invariant 0 <= n <= |nodes|
        invariant if n < |nodes| then cur == nodes[n] else cur == null
        decreases |nodes| - n
      {
        cur := cur.next;
        n := n + 1;
      }
    }
  }

  /** The values held by a sequence of nodes. */
  ghost function Values<T>(ns: seq<Node<T>>): (r: seq<T>)
    reads set i | 0 <= i < |ns| :: ns[i]
    ensures |r| == |ns| && forall i :: 0 <= i < |ns| ==> r[i] == ns[i].value
  {
    if |ns| == 0 then [] else Values(ns[..|ns| - 1]) + [ns[|ns| - 1].value]
  }

  /** Appending a node to the spine appends its value and keeps the others'. */
  lemma ValuesUnchanged<T>(before: seq<Node<T>>, after: seq<Node<T>>, node: Node<T>)
    requires after == before + [node]
    ensures Values(after) == Values(before) + [node.value]
  {
    assert after[..|after| - 1] == before;
  }
}
