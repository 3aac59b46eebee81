/** Where parent links lead that a rotation or a deletion left behind. */
module LlrbLeftovers {
  import opened LlrbNode
  import opened LlrbLinks

  /** The first node outside `unseen` on the parent chain from `x`. */
  ghost function Landing(x: Node?, unseen: set<Node>): Node?
    reads unseen`parent
    decreases unseen
  {
    if x == null || x !in unseen then x else Landing(x.parent, unseen - {x})
  }

  /** From every removed node the parent links lead back to a node of the tree. */
  ghost predicate Homing(all: set<Node>, removed: set<Node>)
    reads removed`parent
  {
    forall m <- removed :: Landing(m, removed) in all - removed
  }

  /** Looking at more nodes does not change where a chain lands, if it lands outside all of them. */
  lemma {:induction false} LandsAlike(x: Node?, unseen: set<Node>, more: set<Node>)
    requires unseen <= more && Landing(x, unseen) !in more
    ensures Landing(x, more) == Landing(x, unseen)
    decreases unseen
  {
    if x in unseen {
      LandsAlike(x.parent, unseen - {x}, more - {x});
    }
  }

  /** A removed node lands where its parent does. */
  lemma ParentLandsAlike(x: Node, all: set<Node>, removed: set<Node>)
    requires Homing(all, removed) && x in removed
    ensures x.parent != null && Landing(x.parent, removed) == Landing(x, removed)
  {
    LandsAlike(x.parent, removed - {x}, removed);
  }

  /** More nodes in the tree do no harm. */
  lemma HomingInMore(all: set<Node>, more: set<Node>, removed: set<Node>)
    requires Homing(all, removed) && all <= more
    ensures Homing(more, removed)
  {
  }

  // ---- Deletion moves nodes out of the tree

  /** Every node of the tree but the root has its parent in the tree, one level up. */
  ghost predicate Leveled(level: map<Node, nat>, root: Node)
    reads level.Keys`parent
  {
    forall n <- level.Keys :: n != root ==> n.parent != null && n.parent in level && level[n.parent] < level[n]
  }

  ghost function Levels(s: Shape, d: nat): (level: map<Node, nat>)
    ensures level.Keys == s.Nodes()
    ensures s.Bin? && s.node !in s.left.Nodes() && s.node !in s.right.Nodes() ==> level[s.node] == d
  {
    if s.Nil? then map[] else (Levels(s.left, d + 1) + Levels(s.right, d + 1))[s.node := d]
  }

  lemma {:induction false} LinkedIsLeveled(s: Shape, d: nat)
    requires Linked(s) && s.Bin?
    ensures Leveled(Levels(s, d), s.node)
  {
    var l, r := Levels(s.left, d + 1), Levels(s.right, d + 1);
    if s.left.Bin? {
      LinkedIsLeveled(s.left, d + 1);
    }
    if s.right.Bin? {
      LinkedIsLeveled(s.right, d + 1);
    }
    forall n | n in s.Nodes() && n != s.node
      ensures n.parent != null && n.parent in s.Nodes() && Levels(s, d)[n.parent] < Levels(s, d)[n]
    {
      if n in s.left.Nodes() {
        assert n in l.Keys && n !in r.Keys;
      } else {
        assert n in r.Keys;
      }
    }
  }

  /** A node of the old tree leads up to one that is still there. */
  lemma {:induction false} OldNodeLands(x: Node, level: map<Node, nat>, root: Node, removed: set<Node>,
                                        unseen: set<Node>)
    requires Leveled(level, root) && x in level && root !in removed && unseen <= removed
    requires forall n <- level.Keys :: n in removed && level[n] <= level[x] ==> n in unseen
    ensures Landing(x, unseen) in level.Keys - removed
    decreases level[x]
  {
    if x in removed {
      OldNodeLands(x.parent, level, root, removed, unseen - {x});
    }
  }

  /** A node that was removed before still leads back, through the tree if need be. */
  lemma {:induction false} OldRemovedLands(x: Node?, level: map<Node, nat>, root: Node, before: set<Node>,
                                           removed: set<Node>,
                                           unseen: set<Node>)
    requires Leveled(level, root) && root !in removed && level.Keys !! before
    requires before <= removed && removed <= before + level.Keys && unseen <= before
    requires Landing(x, unseen) in level.Keys
    ensures Landing(x, unseen + (removed - before)) in level.Keys - removed
    decreases unseen
  {
    var wider := unseen + (removed - before);
    if x in unseen {
      assert wider - {x} == (unseen - {x}) + (removed - before);
      OldRemovedLands(x.parent, level, root, before, removed, unseen - {x});
    } else {
      OldNodeLands(x, level, root, removed, wider);
    }
  }

  /** After nodes left the tree, without any parent link changed, all removed nodes still lead back. */
  lemma HomingAfterRemoval(level: map<Node, nat>, root: Node, before: set<Node>, removed: set<Node>)
    requires Leveled(level, root) && root !in removed && level.Keys !! before
    requires before <= removed && removed <= before + level.Keys
    requires Homing(level.Keys + before, before)
    ensures Homing(level.Keys + before, removed)
  {
    forall m | m in removed
      ensures Landing(m, removed) in level.Keys + before - removed
    {
      if m in before {
        assert before + (removed - before) == removed;
        assert Landing(m, before) in level.Keys;
        OldRemovedLands(m, level, root, before, removed, before);
      } else {
        OldNodeLands(m, level, root, removed, removed);
      }
    }
  }
}
