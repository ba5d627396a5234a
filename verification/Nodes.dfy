/** The m6_nodes projection: births, tombstones and the ancestor chain. */
module Nodes {
  import opened Common

  datatype Kind = Step | Stage | Matter {
    function Rank(): nat {
      match this
      case Step => 0
      case Stage => 1
      case Matter => 2
    }
  }

  /** tombstone is the position of the tombstone event, 0 while the node has none. */
  datatype Node = Node(kind: Kind, repo: Id, parent: Option<Id>, birth: nat, tombstone: nat) {
    predicate LiveAt(position: nat) {
      tombstone == 0 || tombstone > position
    }
  }

  /** What every node command keeps: a Matter has no parent, any other node has a
      parent of larger scale in the same Repo that was born before it. */
  ghost predicate WellFormed(nodes: map<Id, Node>) {
    forall id {:trigger nodes[id]} | id in nodes ::
      && nodes[id].birth > 0
      && (nodes[id].tombstone > 0 ==> nodes[id].birth < nodes[id].tombstone)
      && (nodes[id].parent.None? <==> nodes[id].kind == Matter)
      && (nodes[id].parent.Some? ==>
            && nodes[id].parent.value in nodes
            && nodes[nodes[id].parent.value].kind.Rank() > nodes[id].kind.Rank()
            && nodes[nodes[id].parent.value].repo == nodes[id].repo
            && nodes[nodes[id].parent.value].birth < nodes[id].birth)
  }

  /** later is a state of the table reached after position: nodes keep their
      identity, new nodes are born after it and new tombstones lie after it. */
  ghost predicate GrowsAfter(nodes: map<Id, Node>, later: map<Id, Node>, position: nat) {
    && nodes.Keys <= later.Keys
    && (forall id {:trigger later[id]} | id in nodes ::
          && later[id] == nodes[id].(tombstone := later[id].tombstone)
          && (later[id].tombstone == nodes[id].tombstone
              || (nodes[id].tombstone == 0 && later[id].tombstone > position)))
    && (forall id {:trigger later[id]} | id in later && id !in nodes ::
          later[id].birth > position && later[id].LiveAt(position))
  }

  lemma GrowsAfterTransitive(a: map<Id, Node>, b: map<Id, Node>, c: map<Id, Node>, p: nat, q: nat)
    requires GrowsAfter(a, b, p) && GrowsAfter(b, c, q) && p <= q
    ensures GrowsAfter(a, c, p)
  {
    forall id | id in a
      ensures c[id] == a[id].(tombstone := c[id].tombstone)
      ensures c[id].tombstone == a[id].tombstone || (a[id].tombstone == 0 && c[id].tombstone > p)
    {
      assert b[id] == a[id].(tombstone := b[id].tombstone);
      assert c[id] == b[id].(tombstone := c[id].tombstone);
    }
    forall id | id in c && id !in a
      ensures c[id].birth > p && c[id].LiveAt(p)
    {
      if id in b {
        assert b[id].birth > p && b[id].LiveAt(p);
        assert c[id] == b[id].(tombstone := c[id].tombstone);
      }
    }
  }
}
