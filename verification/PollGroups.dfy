/** The poll-group allocator of src/lib/wepoll.c: groups of at most 32 sockets, kept in a queue
    whose last member is always the one to try next.  The queue is the sequence that
    IntrusiveQueue.Queue refines; a group is its id and its size. */
module PollGroups {
  import opened Options

  const MAX_GROUP_SIZE: nat := 32

  datatype Group = Group(id: nat, size: nat)

  ghost predicate Full(g: Group) { g.size == MAX_GROUP_SIZE }

  ghost function Total(q: seq<Group>): nat {
    if q == [] then 0 else Total(q[..|q| - 1]) + q[|q| - 1].size
  }

  /** Full groups come first and nothing else does; ids are 0 .. |q|, each once. */
  ghost predicate Ordered(q: seq<Group>) {
    && (forall i :: 0 <= i < |q| ==> q[i].size <= MAX_GROUP_SIZE && q[i].id < |q|)
    && (forall i, j :: 0 <= i < j < |q| ==> q[i].id != q[j].id)
    && (forall i, j :: 0 <= i < j < |q| && Full(q[j]) ==> Full(q[i]))
  }

  ghost predicate HasSlot(q: seq<Group>, id: nat) {
    exists i :: 0 <= i < |q| && q[i].id == id && q[i].size > 0
  }

  ghost function IndexOf(q: seq<Group>, id: nat): (i: nat)
    requires exists i :: 0 <= i < |q| && q[i].id == id
    ensures i < |q| && q[i].id == id
  {
    var i :| 0 <= i < |q| && q[i].id == id;
    i
  }

  ghost function Without(q: seq<Group>, i: nat): seq<Group>
    requires i < |q|
  {
    q[..i] + q[i + 1..]
  }

  /** The last group, if there is one, has no room. */
  predicate NeedsGroup(q: seq<Group>) { q == [] || q[|q| - 1].size >= MAX_GROUP_SIZE }

  /** poll_group_acquire: the new queue and the id of the group that gave the slot.  `creates` says
      whether making a new group would succeed. */
  ghost function Acquired(q: seq<Group>, creates: bool): (seq<Group>, Option<nat>) {
    if NeedsGroup(q) then
      if creates then (q + [Group(|q|, 1)], Some(|q|)) else (q, None)
    else
      var g := q[|q| - 1].(size := q[|q| - 1].size + 1);
      (if Full(g) then [g] + q[..|q| - 1] else q[..|q| - 1] + [g], Some(g.id))
  }

  /** poll_group_release */
  ghost function Released(q: seq<Group>, id: nat): seq<Group>
    requires HasSlot(q, id)
  {
    var i := IndexOf(q, id);
    Without(q, i) + [q[i].(size := if q[i].size > 0 then q[i].size - 1 else 0)]
  }

  // ---- sums --------------------------------------------------------------------------------

  lemma {:induction false} TotalConcat(a: seq<Group>, b: seq<Group>)
    ensures Total(a + b) == Total(a) + Total(b)
  {
    if b == [] {
      assert a + b == a;
    } else {
      TotalConcat(a, b[..|b| - 1]);
      assert (a + b)[..|a + b| - 1] == a + b[..|b| - 1];
    }
  }

  lemma {:induction false} TotalOne(g: Group)
    ensures Total([g]) == g.size
  {
    assert [g][..0] == [];
  }

  lemma {:induction false} TotalWithout(q: seq<Group>, i: nat)
    requires i < |q|
    ensures Total(q) == Total(Without(q, i)) + q[i].size
  {
    assert q == q[..i] + ([q[i]] + q[i + 1..]);
    TotalConcat(q[..i], [q[i]] + q[i + 1..]);
    TotalConcat([q[i]], q[i + 1..]);
    TotalConcat(q[..i], q[i + 1..]);
    TotalOne(q[i]);
  }

  lemma {:induction false} TotalBounds(q: seq<Group>)
    requires forall i :: 0 <= i < |q| ==> q[i].size <= MAX_GROUP_SIZE
    ensures Total(q) <= MAX_GROUP_SIZE * |q|
    ensures (forall i :: 0 <= i < |q| ==> Full(q[i])) ==> Total(q) == MAX_GROUP_SIZE * |q|
    ensures q != [] && !Full(q[|q| - 1]) ==> Total(q) < MAX_GROUP_SIZE * |q|
  {
    if q != [] {
      TotalBounds(q[..|q| - 1]);
    }
  }

  lemma {:induction false} ZeroTotal(q: seq<Group>)
    requires Total(q) == 0
    ensures forall i :: 0 <= i < |q| ==> q[i].size == 0
  {
    if q != [] {
      ZeroTotal(q[..|q| - 1]);
    }
  }

  /** The size of group `id`, 0 if there is no such group. */
  ghost function SizeOf(q: seq<Group>, id: nat): nat {
    if q == [] then 0
    else SizeOf(q[..|q| - 1], id) + (if q[|q| - 1].id == id then q[|q| - 1].size else 0)
  }

  lemma {:induction false} SizeOfConcat(a: seq<Group>, b: seq<Group>, id: nat)
    ensures SizeOf(a + b, id) == SizeOf(a, id) + SizeOf(b, id)
  {
    if b == [] {
      assert a + b == a;
    } else {
      SizeOfConcat(a, b[..|b| - 1], id);
      assert (a + b)[..|a + b| - 1] == a + b[..|b| - 1];
    }
  }

  lemma {:induction false} SizeOfOne(g: Group, id: nat)
    ensures SizeOf([g], id) == if g.id == id then g.size else 0
  {
    assert [g][..0] == [];
  }

  lemma {:induction false} SizeOfWithout(q: seq<Group>, i: nat, id: nat)
    requires i < |q|
    ensures SizeOf(q, id) == SizeOf(Without(q, i), id) + (if q[i].id == id then q[i].size else 0)
  {
    assert q == q[..i] + ([q[i]] + q[i + 1..]);
    SizeOfConcat(q[..i], [q[i]] + q[i + 1..], id);
    SizeOfConcat([q[i]], q[i + 1..], id);
    SizeOfConcat(q[..i], q[i + 1..], id);
    SizeOfOne(q[i], id);
  }

  lemma {:induction false} SizedHasSlot(q: seq<Group>, id: nat)
    requires SizeOf(q, id) > 0
    ensures HasSlot(q, id)
  {
    var last := |q| - 1;
    if q[last].id == id && q[last].size > 0 {
    } else {
      SizedHasSlot(q[..last], id);
      var i :| 0 <= i < last && q[..last][i].id == id && q[..last][i].size > 0;
      assert q[i] == q[..last][i];
    }
  }

  // ---- one step ----------------------------------------------------------------------------

  lemma {:induction false} NewGroupKeeps(q: seq<Group>)
    requires Ordered(q) && (q != [] ==> q[|q| - 1].size >= MAX_GROUP_SIZE)
    ensures Ordered(q + [Group(|q|, 1)]) && Total(q + [Group(|q|, 1)]) == Total(q) + 1
    ensures HasSlot(q + [Group(|q|, 1)], |q|) && forall i :: 0 <= i < |q| ==> Full(q[i])
  {
    TotalConcat(q, [Group(|q|, 1)]);
    TotalOne(Group(|q|, 1));
    NewGroupOrdered(q);
  }

  lemma {:induction false} NewGroupOrdered(q: seq<Group>)
    requires Ordered(q) && (q != [] ==> q[|q| - 1].size >= MAX_GROUP_SIZE)
    ensures Ordered(q + [Group(|q|, 1)]) && HasSlot(q + [Group(|q|, 1)], |q|)
    ensures forall i :: 0 <= i < |q| ==> Full(q[i])
  {
    var r, last := q + [Group(|q|, 1)], |q| - 1;
    assert r[|q|] == Group(|q|, 1) && !Full(r[|q|]);
    assert forall i :: 0 <= i < |q| ==> r[i] == q[i];
    assert q != [] ==> Full(q[last]);
    assert forall i :: 0 <= i < |q| ==> i == last || Full(q[i]);
  }

  lemma {:induction false} FillKeeps(q: seq<Group>)
    requires Ordered(q) && q != [] && q[|q| - 1].size < MAX_GROUP_SIZE
    ensures var (r, g) := Acquired(q, true);
      Ordered(r) && |r| == |q| && g.Some? && HasSlot(r, g.value)
  {
    var h, rest := q[|q| - 1].(size := q[|q| - 1].size + 1), q[..|q| - 1];
    if Full(h) {
      var r := [h] + rest;
      assert r[0] == h;
      assert forall i :: 1 <= i < |r| ==> r[i] == q[i - 1];
    } else {
      var r := rest + [h];
      assert r[|rest|] == h;
    }
  }

  lemma {:induction false} FillTotal(q: seq<Group>)
    requires Ordered(q) && q != [] && q[|q| - 1].size < MAX_GROUP_SIZE
    ensures Total(Acquired(q, true).0) == Total(q) + 1 && Total(q) < MAX_GROUP_SIZE * |q|
  {
    TotalBounds(q);
    var h, rest := q[|q| - 1].(size := q[|q| - 1].size + 1), q[..|q| - 1];
    TotalOne(h);
    TotalConcat([h], rest);
    TotalConcat(rest, [h]);
  }

  /** Acquiring keeps full groups in front, adds one slot, and fails only when every group is full
      and no new one can be made. */
  lemma {:induction false} AcquireKeeps(q: seq<Group>, creates: bool)
    requires Ordered(q)
    ensures var (r, g) := Acquired(q, creates);
      && Ordered(r)
      && (g.None? ==> r == q && !creates && forall i :: 0 <= i < |q| ==> Full(q[i]))
      && (g.Some? ==> Total(r) == Total(q) + 1 && HasSlot(r, g.value))
      && (|r| == |q| || (|r| == |q| + 1 && forall i :: 0 <= i < |q| ==> Full(q[i])))
      && (g.Some? && |r| == |q| ==> Total(q) < MAX_GROUP_SIZE * |q|)
  {
    if q == [] || q[|q| - 1].size >= MAX_GROUP_SIZE {
      NewGroupKeeps(q);
    } else {
      FillKeeps(q);
      FillTotal(q);
    }
  }

  lemma {:induction false} SlotIndex(q: seq<Group>, id: nat) returns (i: nat)
    requires Ordered(q) && HasSlot(q, id)
    ensures i < |q| && q[i].id == id && q[i].size > 0
    ensures Released(q, id) == Without(q, i) + [q[i].(size := q[i].size - 1)]
  {
    i := IndexOf(q, id);
    var k :| 0 <= k < |q| && q[k].id == id && q[k].size > 0;
    assert i == k;
  }

  /** Releasing a slot takes one slot away and keeps full groups in front. */
  lemma {:induction false} ReleaseKeeps(q: seq<Group>, id: nat)
    requires Ordered(q) && HasSlot(q, id)
    ensures Ordered(Released(q, id)) && |Released(q, id)| == |q|
    ensures Total(Released(q, id)) == Total(q) - 1
  {
    var i := SlotIndex(q, id);
    var g := q[i].(size := q[i].size - 1);
    MovedKeeps(q, i, g);
    TotalWithout(q, i);
    TotalConcat(Without(q, i), [g]);
    TotalOne(g);
  }

  lemma {:induction false} MovedKeeps(q: seq<Group>, i: nat, g: Group)
    requires Ordered(q) && i < |q| && g.id == q[i].id && g.size < MAX_GROUP_SIZE
    ensures Ordered(Without(q, i) + [g])
  {
    var r := Without(q, i) + [g];
    assert r[|q| - 1] == g;
    assert forall j :: 0 <= j < |q| - 1 ==> r[j] == q[if j < i then j else j + 1];
  }

  /** Which group gained the acquired slot, and which lost the released one. */
  lemma {:induction false} AcquireSizes(q: seq<Group>, creates: bool, id: nat)
    requires Acquired(q, creates).1.Some?
    ensures var (r, g) := Acquired(q, creates);
      SizeOf(r, id) == SizeOf(q, id) + (if id == g.value then 1 else 0)
  {
    if q == [] || q[|q| - 1].size >= MAX_GROUP_SIZE {
      SizeOfConcat(q, [Group(|q|, 1)], id);
      SizeOfOne(Group(|q|, 1), id);
    } else {
      var h, rest := q[|q| - 1].(size := q[|q| - 1].size + 1), q[..|q| - 1];
      SizeOfOne(h, id);
      SizeOfConcat([h], rest, id);
      SizeOfConcat(rest, [h], id);
    }
  }

  lemma {:induction false} ReleaseSizes(q: seq<Group>, released: nat, id: nat)
    requires Ordered(q) && HasSlot(q, released)
    ensures SizeOf(Released(q, released), id) == SizeOf(q, id) - (if id == released then 1 else 0)
  {
    var i := SlotIndex(q, released);
    var g := q[i].(size := q[i].size - 1);
    SizeOfWithout(q, i, id);
    SizeOfConcat(Without(q, i), [g], id);
    SizeOfOne(g, id);
  }

  /** A new group is needed exactly when all slots of all groups are in use. */
  lemma {:induction false} NeedsGroupIffFull(q: seq<Group>)
    requires Ordered(q)
    ensures NeedsGroup(q) <==> Total(q) == MAX_GROUP_SIZE * |q|
  {
    TotalBounds(q);
    if NeedsGroup(q) {
      assert forall i :: 0 <= i < |q| ==> i == |q| - 1 || Full(q[i]);
    }
  }

  // ---- every run ---------------------------------------------------------------------------

  datatype Op = Acquire(creates: bool) | Release(id: nat)

  /** The queue after a run, and the largest number of slots in use at any time during it. */
  datatype History = History(queue: seq<Group>, peak: nat)

  ghost function Max(a: nat, b: nat): nat { if a > b then a else b }

  /** A run only releases slots it holds. */
  ghost predicate Legal(ops: seq<Op>)
    decreases |ops|, 0
  {
    ops != [] ==>
      && Legal(ops[..|ops| - 1])
      && var op := ops[|ops| - 1];
      op.Release? ==> HasSlot(Run(ops[..|ops| - 1]).queue, op.id)
  }

  ghost function Run(ops: seq<Op>): History
    requires Legal(ops)
    decreases |ops|, 1
  {
    if ops == [] then History([], 0)
    else
      Stepped(Run(ops[..|ops| - 1]), ops[|ops| - 1])
  }

  ghost function Stepped(h: History, op: Op): History
    requires op.Release? ==> HasSlot(h.queue, op.id)
  {
    var q := if op.Acquire? then Acquired(h.queue, op.creates).0 else Released(h.queue, op.id);
    History(q, Max(h.peak, Total(q)))
  }

  ghost predicate Follows(h: History) {
    Ordered(h.queue) && Total(h.queue) <= h.peak && |h.queue| == (h.peak + 31) / 32
  }

  /** Over every run full groups form a prefix of the queue, and the number of groups is exactly
      the peak number of slots in use divided by 32, rounded up. */
  lemma {:induction false} GroupsFollowPeak(ops: seq<Op>)
    requires Legal(ops)
    ensures var h := Run(ops);
      Ordered(h.queue) && Total(h.queue) <= h.peak && |h.queue| == (h.peak + 31) / 32
  {
    RunFollows(ops);
  }

  lemma {:induction false} RunFollows(ops: seq<Op>)
    requires Legal(ops)
    ensures Follows(Run(ops))
  {
    if ops == [] {
      NothingFollows();
    } else {
      RunFollows(ops[..|ops| - 1]);
      StepFollows(Run(ops[..|ops| - 1]), ops[|ops| - 1]);
    }
  }

  lemma {:induction false} NothingFollows()
    ensures Follows(History([], 0))
  {
    assert Total([]) == 0;
  }

  lemma {:induction false} StepFollows(h: History, op: Op)
    requires Follows(h) && (op.Release? ==> HasSlot(h.queue, op.id))
    ensures Follows(Stepped(h, op))
  {
    if op.Acquire? {
      PeakAfterAcquire(h, op.creates);
    } else {
      ReleaseKeeps(h.queue, op.id);
    }
  }

  lemma {:induction false} PeakAfterAcquire(h: History, creates: bool)
    requires Follows(h)
    ensures var q := Acquired(h.queue, creates).0;
      Ordered(q) && |q| == (Max(h.peak, Total(q)) + 31) / 32
  {
    TotalBounds(h.queue);
    AcquireKeeps(h.queue, creates);
  }

  /** The allocator as it is updated in place. */
  class Allocator {
    var queue: seq<Group>

    constructor ()
      ensures queue == []
    {
      queue := [];
    }

    /** poll_group_acquire */
    method AcquireSlot(creates: bool) returns (id: Option<nat>)
      modifies this
      ensures (queue, id) == Acquired(old(queue), creates)
    {
      if NeedsGroup(queue) {
        if !creates {
          return None;
        }
        queue := queue + [Group(|queue|, 0)];
        assert old(queue) == queue[..|queue| - 1];
      }
      var last := |queue| - 1;
      var g := queue[last];
      g := g.(size := g.size + 1);
      ghost var rest := queue[..last];
      queue := queue[last := g];
      assert queue == rest + [g] && queue[..last] == rest;
      if g.size == MAX_GROUP_SIZE {
        queue := [g] + queue[..last];
      }
      id := Some(g.id);
    }

    /** poll_group_release */
    method ReleaseSlot(id: nat)
      requires Ordered(queue) && HasSlot(queue, id)
      modifies this
      ensures queue == Released(old(queue), id)
    {
      var i := 0;
      while queue[i].id != id
        invariant 0 <= i < |queue| && queue == old(queue)
        invariant exists j :: i <= j < |queue| && queue[j].id == id
        decreases |queue| - i
      {
        i := i + 1;
      }
      assert i == IndexOf(queue, id);
      var g := queue[i];
      g := g.(size := g.size - 1);
      queue := queue[..i] + queue[i + 1..] + [g];
    }

    /** poll_group_delete of the first group; its assertion is the requires */
    method Drop()
      requires queue != [] && queue[0].size == 0
      modifies this
      ensures queue == old(queue)[1..]
    {
      queue := queue[1..];
    }
  }
}
