/// The thread-ancestry walk of both VM revisions (src/machine/thread/mod.rs:88-109 and
/// crystalvm/src/thread/mod.rs:50-69), over the machine's thread table seen as a map
/// from each known thread id to its parent's id.
module Ancestry {
  import opened Bits

  /// Thread ids come from an increasing counter and a parent exists before its
  /// children, so every parent id is below its child's id; the main thread is 0.
  ghost predicate ParentsPrecede(parents: map<u32, u32>)
  {
    forall id :: id in parents && id != 0 ==> parents[id] < id
  }

  /// The walk both revisions share: from `id`, step to the parent while the current id
  /// is not 0; true as soon as a step lands on `tid`, false at 0 or at an unknown id.
  function Walk(parents: map<u32, u32>, id: u32, tid: u32): bool
    requires ParentsPrecede(parents)
    decreases id
  {
    if id == 0 || id !in parents then false
    else parents[id] == tid || Walk(parents, parents[id], tid)
  }

  /// `is_child_of` of src/machine/thread/mod.rs: a thread is its own child.
  function IsChildOf(parents: map<u32, u32>, self: u32, tid: u32): bool
    requires ParentsPrecede(parents)
  {
    tid == self || Walk(parents, self, tid)
  }

  /// `is_parent_of` of src/machine/thread/mod.rs: t must be a known thread.
  function IsParentOf(parents: map<u32, u32>, self: u32, t: u32): bool
    requires ParentsPrecede(parents)
  {
    t in parents && IsChildOf(parents, t, self)
  }

  /// `is_child_of` of crystalvm/src/thread/mod.rs: the same walk without the self check.
  function LegacyIsChildOf(parents: map<u32, u32>, self: u32, tid: u32): bool
    requires ParentsPrecede(parents)
  {
    Walk(parents, self, tid)
  }

  /// `is_parent_of` of crystalvm/src/thread/mod.rs.
  function LegacyIsParentOf(parents: map<u32, u32>, self: u32, t: u32): bool
    requires ParentsPrecede(parents)
  {
    t in parents && LegacyIsChildOf(parents, t, self)
  }

  /// Every id on the chain from `id` down to 0 is a known thread.
  ghost predicate ChainKnown(parents: map<u32, u32>, id: u32)
    requires ParentsPrecede(parents)
    decreases id
  {
    id == 0 || (id in parents && ChainKnown(parents, parents[id]))
  }

  /// The walk only ever succeeds on ids strictly below the start.
  lemma {:induction false} WalkDescends(parents: map<u32, u32>, id: u32, tid: u32)
    requires ParentsPrecede(parents) && Walk(parents, id, tid)
    ensures tid < id
    decreases id
  {
    if parents[id] != tid {
      WalkDescends(parents, parents[id], tid);
    }
  }

  /// Ancestry is transitive: a child of a child of z is a child of z.
  lemma {:induction false} WalkTransitive(parents: map<u32, u32>, x: u32, y: u32, z: u32)
    requires ParentsPrecede(parents)
    requires Walk(parents, x, y) && (y == z || Walk(parents, y, z))
    ensures Walk(parents, x, z)
    decreases x
  {
    if parents[x] != y {
      WalkTransitive(parents, parents[x], y, z);
    }
  }

  lemma IsChildOfTransitive(parents: map<u32, u32>, x: u32, y: u32, z: u32)
    requires ParentsPrecede(parents)
    requires IsChildOf(parents, x, y) && IsChildOf(parents, y, z)
    ensures IsChildOf(parents, x, z)
  {
    if x != y && x != z {
      WalkTransitive(parents, x, y, z);
    }
  }

  /// A thread whose whole chain is known descends from the main thread 0 in both
  /// revisions (the walk compares the id after each step, so it sees 0 land).
  lemma {:induction false} KnownChainReachesRoot(parents: map<u32, u32>, id: u32)
    requires ParentsPrecede(parents) && ChainKnown(parents, id) && id != 0
    ensures Walk(parents, id, 0)
    decreases id
  {
    if parents[id] != 0 {
      KnownChainReachesRoot(parents, parents[id]);
    }
  }

  /// In src/machine/thread/mod.rs no thread is its own proper ancestor, so the self
  /// check is what makes `is_child_of(self)` true; the earlier revision has no such
  /// check and answers false for every thread asked about itself.
  lemma LegacyNotOwnChild(parents: map<u32, u32>, self: u32)
    requires ParentsPrecede(parents)
    ensures IsChildOf(parents, self, self)
    ensures !LegacyIsChildOf(parents, self, self)
  {
    if Walk(parents, self, self) {
      WalkDescends(parents, self, self);
    }
  }

  /// A direct child is a child; its parent is its parent.
  lemma DirectParent(parents: map<u32, u32>, t: u32)
    requires ParentsPrecede(parents) && t in parents && t != 0
    ensures IsParentOf(parents, parents[t], t)
    ensures LegacyIsParentOf(parents, parents[t], t)
  {
  }

  /// Outside the self check the two revisions agree.
  lemma RevisionsAgree(parents: map<u32, u32>, self: u32, tid: u32)
    requires ParentsPrecede(parents) && tid != self
    ensures IsChildOf(parents, self, tid) == LegacyIsChildOf(parents, self, tid)
  {
  }

  /// An unknown thread has no ancestors (other than itself in the later revision).
  lemma UnknownHasNoAncestors(parents: map<u32, u32>, self: u32, tid: u32)
    requires ParentsPrecede(parents) && self !in parents
    ensures !LegacyIsChildOf(parents, self, tid)
    ensures IsChildOf(parents, self, tid) <==> tid == self
  {
  }
}
