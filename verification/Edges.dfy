/**
 * The edges of the mesh as a node knows them: one tree ordered by weight, one tree for each node, and the links
 * between opposite edges; and what messages about edges do to them.
 */
module Edges {
  import opened Wrappers

  type Name = nat

  /** What an edge says; the address is that of its end. */
  datatype Info = Info(weight: int, session: nat, address: nat)

  class Edge {
    const from: Name
    const to: Name
    const info: Info
    var reverse: Edge?

    constructor (from: Name, to: Name, info: Info)
      ensures this.from == from && this.to == to && this.info == info && reverse == null
    {
      this.from, this.to, this.info := from, to, info;
      reverse := null;
    }
  }

  /** The node trees together, by both ends of the edge; and the tree of all edges, by weight first. */
  type Trees = map<(Name, Name), Edge>
  type ByWeight = map<(int, Name, Name), Edge>

  ghost function Opposite(trees: Trees, from: Name, to: Name): Edge? {
    if (to, from) in trees then trees[(to, from)] else null
  }

  ghost predicate Placed(e: Edge, a: Name, b: Name, all: ByWeight) {
    e.from == a && e.to == b && (e.info.weight, a, b) in all && all[(e.info.weight, a, b)] == e
  }

  ghost predicate SameEdges(trees: Trees, all: ByWeight) {
    && (forall a, b :: (a, b) in trees ==> Placed(trees[(a, b)], a, b, all))
    && (forall w, a, b :: (w, a, b) in all ==>
          all[(w, a, b)].info.weight == w && (a, b) in trees && trees[(a, b)] == all[(w, a, b)])
  }

  ghost predicate Linked(trees: Trees, edges: set<Edge>)
    reads edges
  {
    forall a, b :: (a, b) in trees ==> trees[(a, b)] in edges && trees[(a, b)].reverse == Opposite(trees, a, b)
  }

  lemma SameMore(trees: Trees, all: ByWeight, e: Edge)
    requires SameEdges(trees, all) && (e.from, e.to) !in trees
    ensures SameEdges(trees[(e.from, e.to) := e], all[(e.info.weight, e.from, e.to) := e])
  {
  }

  class Mesh {
    const self: Name
    var nodes: set<Name>
    var trees: Trees
    var all: ByWeight
    var contradictingAdds: nat
    var contradictingDels: nat
    ghost var edges: set<Edge>

    constructor (self: Name)
      ensures Valid() && fresh(edges) && this.self == self && trees == map[] && nodes == {self}
    {
      this.self, nodes, trees, all := self, {self}, map[], map[];
      contradictingAdds, contradictingDels, edges := 0, 0, {};
    }

    ghost predicate Valid()
      reads this, edges
    {
      && SameEdges(trees, all) && Linked(trees, edges) && self in nodes
      && forall a, b :: (a, b) in trees ==> a in nodes && b in nodes
    }

    /** edge_add: insert into both trees, and link with the opposite edge. */
    method Add(e: Edge)
      requires Valid() && (e.from, e.to) !in trees && e !in edges && e.from in nodes && e.to in nodes
      modifies this`trees, this`all, this`edges, edges`reverse, e`reverse
      ensures Valid() && trees == old(trees)[(e.from, e.to) := e] && edges == old(edges) + {e}
    {
      SameMore(trees, all, e);
      all := all[(e.info.weight, e.from, e.to) := e];
      trees := trees[(e.from, e.to) := e];
      edges := edges + {e};
      e.reverse := if (e.to, e.from) in trees then trees[(e.to, e.from)] else null;
      if e.reverse != null { e.reverse.reverse := e; }
    }

    /** edge_del: unlink from the opposite edge, and remove from both trees. */
    method Delete(e: Edge)
      requires Valid() && (e.from, e.to) in trees && trees[(e.from, e.to)] == e
      modifies this`trees, this`all, edges`reverse
      ensures Valid() && trees == old(trees) - {(e.from, e.to)}
    {
      if e.reverse != null { e.reverse.reverse := null; }
      all := all - {(e.info.weight, e.from, e.to)};
      trees := trees - {(e.from, e.to)};
    }

    /** A message from a peer. */
    method ReceiveOne(m: Message)
      requires Valid() && m.reachable(self)
      modifies this, edges`reverse
      ensures Valid() && Own(trees, self) == Own(old(trees), self) && fresh(edges - old(edges))
      ensures forall k: (Name, Name) :: k.0 != self && k.1 != self ==>
                Known(trees, k) == Said(Known(old(trees), k), m, k)
    {
      match m
      case AddEdge(from, to, info, peer, sameSubmesh, reachable) =>
        var ok, reply, forward := AddMessage(from, to, info, peer, sameSubmesh, reachable);
      case DelEdge(from, to, sameSubmesh, reachable) =>
        var ok, reply, forward, announced := DelMessage(from, to, sameSubmesh, reachable);
    }

    /**
     * Messages from peers, one after the other: the edges of the node itself stay as they are, and those between other
     * nodes are what the last message about them said.
     */
    method Receive(messages: seq<Message>)
      requires Valid() && forall i :: 0 <= i < |messages| ==> messages[i].reachable(self)
      modifies this, edges`reverse
      ensures Valid() && Own(trees, self) == Own(old(trees), self)
      ensures forall k: (Name, Name) :: k.0 != self && k.1 != self ==>
                Known(trees, k) == Heard(Known(old(trees), k), messages, k)
    {
      ghost var start, was := edges, trees;
      for n := 0 to |messages|
        invariant Valid() && Own(trees, self) == Own(old(trees), self) && fresh(edges - start)
        invariant forall k: (Name, Name) :: k.0 != self && k.1 != self ==>
                    Known(trees, k) == Heard(Known(was, k), messages[..n], k)
      {
        assert messages[..n + 1][..n] == messages[..n];
        ReceiveOne(messages[n]);
      }
      assert messages[..|messages|] == messages;
    }

    /** An edge as a message describes it replaces the one that is there, if any. */
    method Replace(from: Name, to: Name, info: Info) returns (e: Edge)
      requires Valid() && from in nodes && to in nodes
      modifies this`trees, this`all, this`edges, edges`reverse
      ensures Valid() && fresh(e) && e.from == from && e.to == to && e.info == info && edges == old(edges) + {e}
      ensures trees == old(trees)[(from, to) := e]
    {
      if (from, to) in trees { Delete(trees[(from, to)]); }
      e := new Edge(from, to, info);
      Add(e);
    }

    /**
     * add_edge_h, for a request that was not seen before. `reachable` is what the last search found, `peer` the
     * node at the other end of the connection. An edge between submeshes is added but not forwarded.
     */
    method AddMessage(from: Name, to: Name, info: Info, peer: Option<Name>, sameSubmesh: bool, reachable: Name -> bool)
      returns (ok: bool, reply: Reply, forward: bool)
      requires Valid()
      modifies this`nodes, this`trees, this`all, this`edges, this`contradictingAdds, edges`reverse
      ensures Valid() && nodes == old(nodes) + {from, to} && fresh(edges - old(edges))
      ensures forward == (ok && AddAccepted(old(trees), self, from, to, info, peer, reachable))
      ensures ok == (sameSubmesh || !AddAccepted(old(trees), self, from, to, info, peer, reachable))
      ensures if AddAccepted(old(trees), self, from, to, info, peer, reachable)
              then && (from, to) in trees && trees[(from, to)].info == info && fresh(trees[(from, to)])
                   && trees == old(trees)[(from, to) := trees[(from, to)]]
              else trees == old(trees)
      ensures from != self && (to != self || (from, to) !in old(trees) || peer == Some(from) || !reachable(from)) ==>
                (from, to) in trees && trees[(from, to)].info == info
      ensures from == self || (to == self && (from, to) in old(trees) && peer != Some(from) && reachable(from)) ==>
                trees == old(trees)
      ensures forward <==> ok && trees != old(trees)
      ensures Own(trees, self) == Own(old(trees), self)
      ensures reply == if from != self then NoReply
                       else if (from, to) !in old(trees) then Contradict(contradictingAdds)
                       else if old(trees)[(from, to)].info != info then Correct(old(trees)[(from, to)].info, 0)
                       else NoReply
      ensures contradictingAdds == old(contradictingAdds) + if from == self && (from, to) !in old(trees) then 1 else 0
    {
      nodes := nodes + {from, to};
      ok, reply, forward := true, NoReply, false;
      if (from, to) in trees {
        var e := trees[(from, to)];
        if e.info == info { return; }
        if from == self { return true, Correct(e.info, 0), false; }
        if to == self && peer != Some(from) && reachable(from) { return; }
      } else if from == self {
        contradictingAdds := contradictingAdds + 1;
        return true, Contradict(contradictingAdds), false;
      }
      ghost var was := trees;
      var e := Replace(from, to, info);
      OwnKept(was, (from, to), e, self);
      ok, forward := sameSubmesh, sameSubmesh;
    }

    /**
     * del_edge_h, for a request that was not seen before; `reachable` is what the search finds after the edge is
     * gone. The node itself always finds itself. An edge from an unreachable node is removed too, and `announced`
     * to all.
     */
    method DelMessage(from: Name, to: Name, sameSubmesh: bool, reachable: Name -> bool)
      returns (ok: bool, reply: Reply, forward: bool, announced: Option<(Name, Name)>)
      requires Valid() && reachable(self)
      modifies this`trees, this`all, this`contradictingDels, edges`reverse
      ensures Valid()
      ensures forward == (from != self && (from, to) in old(trees) && sameSubmesh)
      ensures ok == (forward || from == self || (from, to) !in old(trees))
      ensures trees == if !forward then old(trees)
                       else if reachable(to) then old(trees) - {(from, to)} else old(trees) - {(from, to), (to, self)}
      ensures announced == if forward && !reachable(to) && (to, self) in old(trees) then Some((to, self)) else None
      ensures Own(trees, self) == Own(old(trees), self)
      ensures reply == if from == self && (from, to) in old(trees)
                       then Correct(old(trees)[(from, to)].info, contradictingDels) else NoReply
      ensures contradictingDels == old(contradictingDels) + if from == self && (from, to) in old(trees) then 1 else 0
    {
      ok, reply, forward, announced := true, NoReply, false, None;
      if from !in nodes || to !in nodes || (from, to) !in trees { return; }
      var e := trees[(from, to)];
      if from == self {
        contradictingDels := contradictingDels + 1;
        return true, Correct(e.info, contradictingDels), false, None;
      }
      if !sameSubmesh { return false, NoReply, false, None; }
      forward := true;
      Delete(e);
      if !reachable(to) && (to, self) in trees {
        announced := Some((to, self));
        Delete(trees[(to, self)]);
      }
      assert trees == if reachable(to) then old(trees) - {(from, to)} else old(trees) - {(from, to), (to, self)};
    }
  }

  /** A message with what the search finds around it. */
  datatype Message =
    | AddEdge(from: Name, to: Name, info: Info, peer: Option<Name>, sameSubmesh: bool, reachable: Name -> bool)
    | DelEdge(from: Name, to: Name, sameSubmesh: bool, reachable: Name -> bool)

  /** A correction that is sent back: the edge as it is, or that it does not exist. */
  datatype Reply = NoReply | Correct(info: Info, contradictions: nat) | Contradict(contradictions: nat)

  /** What is known about an edge. */
  ghost function Known(trees: Trees, k: (Name, Name)): Option<Info> {
    if k in trees then Some(trees[k].info) else None
  }

  /** What a message leaves known about an edge. Edges between submeshes are not removed. */
  ghost function Said(known: Option<Info>, m: Message, k: (Name, Name)): Option<Info> {
    if (m.from, m.to) != k then known
    else if m.AddEdge? then Some(m.info)
    else if m.sameSubmesh then None else known
  }

  ghost function Heard(start: Option<Info>, messages: seq<Message>, k: (Name, Name)): Option<Info> {
    if messages == [] then start
    else Said(Heard(start, messages[..|messages| - 1], k), messages[|messages| - 1], k)
  }

  /** The edges that start at a node. */
  ghost function Own(trees: Trees, self: Name): Trees { map k | k in trees && k.0 == self :: trees[k] }

  lemma OwnKept(trees: Trees, k: (Name, Name), e: Edge, self: Name)
    requires k.0 != self
    ensures Own(trees[k := e], self) == Own(trees, self)
  {
  }

  /** Whether an edge in a message changes what is known: never one of the node's own. */
  predicate AddAccepted(trees: Trees, self: Name, from: Name, to: Name, info: Info, peer: Option<Name>,
      reachable: Name -> bool) {
    && from != self
    && ((from, to) in trees ==>
          trees[(from, to)].info != info && !(to == self && peer != Some(from) && reachable(from)))
  }

  /** Links between opposite edges are mutual. */
  lemma Mutual(m: Mesh, a: Name, b: Name)
    requires m.Valid() && (a, b) in m.trees
    ensures var e := m.trees[(a, b)];
            (e.reverse == null <==> (b, a) !in m.trees)
                && (e.reverse != null ==> e.reverse == m.trees[(b, a)] && e.reverse.reverse == e)
  {
  }
}
