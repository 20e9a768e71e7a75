/** The kernel's intrusive circular doubly linked lists.

    A list is a ring of nodes: a head that carries no entry, then the entries in order.  Each
    operation is proved to have on the links exactly the effect that the other modules take it to
    have on the sequence of entries.
 */
module ListHead {
  import opened Sequences

  class Node {
    var next: Node?
    var prev: Node?

    constructor ()
    {
      next, prev := null, null;
    }
  }

  /** The successor of position i in a ring of n nodes. */
  function After(i: nat, n: nat): nat {
    if i + 1 < n then i + 1 else 0
  }

  ghost predicate Ring(nodes: seq<Node>)
    reads nodes
  {
    && nodes != [] && NoDup(nodes)
    && (forall i :: 0 <= i < |nodes| ==> nodes[i].next == nodes[After(i, |nodes|)])
    && (forall i :: 0 <= i < |nodes| ==> nodes[After(i, |nodes|)].prev == nodes[i])
  }

  /** head is the head of a list with exactly these entries, in this order. */
  ghost predicate IsList(head: Node, entries: seq<Node>)
    reads head, entries
  {
    Ring([head] + entries)
  }

  method ListInit(head: Node)
    modifies head
    ensures IsList(head, [])
  {
    head.next := head;
    head.prev := head;
  }

  method ListAdd(node: Node, head: Node, ghost entries: seq<Node>)
    requires IsList(head, entries) && node != head && node !in entries
    modifies node, head, entries
    ensures IsList(head, [node] + entries)
  {
    ghost var nodes := [head] + entries;
    assert head == nodes[0] && head.next == nodes[After(0, |nodes|)];
    node.next := head.next;
    node.prev := head;
    head.next.prev := node;
    head.next := node;
    ghost var ring := [head] + ([node] + entries);
    assert forall j :: 0 <= j < |ring| ==> ring[j] == if j == 0 then head else if j == 1 then node else nodes[j - 1];
    assert forall j :: 1 <= j < |nodes| ==> nodes[j].next == nodes[After(j, |nodes|)];
    assert forall j :: 1 <= j < |nodes| ==> nodes[After(j, |nodes|)].prev == nodes[j];
    assert NoDup(ring);
  }

  method ListAddTail(node: Node, head: Node, ghost entries: seq<Node>)
    requires IsList(head, entries) && node != head && node !in entries
    modifies node, head, entries
    ensures IsList(head, entries + [node])
  {
    ghost var nodes := [head] + entries;
    assert head == nodes[After(|nodes| - 1, |nodes|)] && head.prev == nodes[|nodes| - 1];
    node.next := head;
    node.prev := head.prev;
    head.prev.next := node;
    head.prev := node;
    assert [head] + (entries + [node]) == nodes + [node];
  }

  /** list_del reaches the neighbours through the entry itself, whose own links stay as they were. */
  method ListDel(entry: Node, ghost head: Node, ghost entries: seq<Node>, ghost i: nat)
    requires IsList(head, entries) && i < |entries| && entry == entries[i]
    modifies head, entries
    ensures IsList(head, Dropped(entries, i))
    ensures entry.next == old(entry.next) && entry.prev == old(entry.prev)
  {
    ghost var nodes := [head] + entries;
    assert nodes[i + 1] == entry && nodes[i].next == entry && nodes[After(i, |nodes|)].prev == nodes[i];
    assert entry.next == nodes[After(i + 1, |nodes|)] && nodes[After(i + 1, |nodes|)].prev == entry;
    entry.prev.next := entry.next;
    entry.next.prev := entry.prev;
    assert [head] + Dropped(entries, i) == Dropped(nodes, i + 1);
    assert forall j :: 0 <= j < |nodes| && j != i && j != i + 1 ==> nodes[j].next == nodes[After(j, |nodes|)];
    assert forall j :: 0 <= j < |nodes| && j != i && j != i + 1 ==> nodes[After(j, |nodes|)].prev == nodes[j];
    assert nodes[i].next == nodes[After(i + 1, |nodes|)] && nodes[After(i + 1, |nodes|)].prev == nodes[i];
    hide After, Ring, NoDup;
    RingWithout(nodes, i + 1);
  }

  /** A ring that skips position k is the ring of the other nodes. */
  lemma RingWithout(nodes: seq<Node>, k: nat)
    requires 0 < k < |nodes| && NoDup(nodes)
    requires forall j :: 0 <= j < |nodes| && j != k && j != k - 1 ==>
               nodes[j].next == nodes[After(j, |nodes|)] && nodes[After(j, |nodes|)].prev == nodes[j]
    requires nodes[k - 1].next == nodes[After(k, |nodes|)] && nodes[After(k, |nodes|)].prev == nodes[k - 1]
    ensures Ring(Dropped(nodes, k))
  {
    var rest := Dropped(nodes, k);
    forall j | 0 <= j < |rest|
      ensures rest[j].next == rest[After(j, |rest|)] && rest[After(j, |rest|)].prev == rest[j]
    {
      if j < k - 1 {
        assert rest[j] == nodes[j] && rest[j + 1] == nodes[j + 1];
      } else if j > k - 1 {
        assert rest[j] == nodes[j + 1];
        assert nodes[j + 1].next == nodes[After(j + 1, |nodes|)];
      } else {
        assert rest[j] == nodes[k - 1];
      }
    }
  }

  method ListEmpty(head: Node, ghost entries: seq<Node>) returns (r: bool)
    requires IsList(head, entries)
    ensures r <==> entries == []
  {
    assert ([head] + entries)[0].next == ([head] + entries)[After(0, |entries| + 1)];
    r := head.next == head;
  }

  method ListPop(head: Node, ghost entries: seq<Node>) returns (r: Node?)
    requires IsList(head, entries)
    modifies head, entries
    ensures entries == [] ==> r == null && IsList(head, [])
    ensures entries != [] ==> r == entries[0] && IsList(head, entries[1..])
  {
    var empty := ListEmpty(head, entries);
    if empty {
      return null;
    }
    assert ([head] + entries)[0].next == ([head] + entries)[1];
    var entry := head.next;
    ListDel(entry, head, entries, 0);
    assert Dropped(entries, 0) == entries[1..];
    r := entry;
  }

  /** list_find: the position of an entry, or -1, for the head as well. */
  method ListFind(head: Node, entry: Node, ghost entries: seq<Node>) returns (r: int)
    requires IsList(head, entries)
    ensures entry !in entries ==> r == -1
    ensures entry in entries ==> 0 <= r < |entries| && entries[r] == entry
  {
    ghost var nodes := [head] + entries;
    assert nodes[0].next == nodes[After(0, |nodes|)];
    r := 0;
    var current := head.next;
    while current != head
      invariant 0 <= r <= |entries| && current == nodes[After(r, |nodes|)]
      invariant entry !in entries[..r]
      decreases |entries| - r
    {
      assert r < |entries| && current == nodes[r + 1] == entries[r];
      if current == entry {
        return;
      }
      assert entries[..r + 1] == entries[..r] + [entries[r]];
      assert nodes[r + 1].next == nodes[After(r + 1, |nodes|)];
      r := r + 1;
      current := current.next;
    }
    assert After(r, |nodes|) == 0;
    assert entries[..r] == entries;
    r := -1;
  }
}
