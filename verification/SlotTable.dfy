/** The buffer table of the memalloc kernel module: 16 slots, each active or not, for buffers of
    coherent memory. An address of 0 is the null pointer; a failed allocation leaves it in a slot
    that stays active. */
module SlotTable {
  import opened Words

  const SLOTS: nat := 16

  /** size is a signed number, though the kernel counts sizes without sign. */
  datatype Slot = Slot(active: bool, size: int, address: int)

  /** What the kernel is asked for: an address and the size of what is there. */
  datatype Buffer = Buffer(address: int, size: u32)

  function BufferOf(s: Slot): Buffer {
    Buffer(s.address, s.size % 0x1_0000_0000)
  }

  // ----- Specification

  /** The least index from i on of a slot that is not active, SLOTS if there is none. */
  function LeastFree(table: seq<Slot>, i: nat): (k: nat)
    requires |table| == SLOTS && i <= SLOTS
    ensures i <= k <= SLOTS
    ensures k < SLOTS ==> !table[k].active
    ensures forall j :: i <= j < k ==> table[j].active
    decreases SLOTS - i
  {
    if i == SLOTS || !table[i].active then i else LeastFree(table, i + 1)
  }

  /** The buffers of the active slots, but for those of failed allocations. */
  function Live(table: seq<Slot>): multiset<Buffer> {
    if table == [] then multiset{}
    else Live(table[..|table| - 1]) + One(table[|table| - 1])
  }

  function One(s: Slot): (m: multiset<Buffer>) {
    if s.active && s.address != 0 then multiset{BufferOf(s)} else multiset{}
  }

  /** What the module asks of the kernel, in order. */
  datatype Request = Alloc(buffer: Buffer) | Free(buffer: Buffer)

  function AfterRequest(held: multiset<Buffer>, r: Request): multiset<Buffer> {
    match r
    case Alloc(b) => if b.address != 0 then held + multiset{b} else held
    case Free(b) => if b.address != 0 then held - multiset{b} else held
  }

  /** Allocated and not freed, when every free names something outstanding. */
  function Outstanding(requests: seq<Request>): multiset<Buffer> {
    if requests == [] then multiset{}
    else AfterRequest(Outstanding(requests[..|requests| - 1]), requests[|requests| - 1])
  }

  lemma OutstandingAppend(requests: seq<Request>, r: Request)
    ensures Outstanding(requests + [r]) == AfterRequest(Outstanding(requests), r)
  {
    assert (requests + [r])[..|requests|] == requests;
  }

  /** Every free names something outstanding at that time, with the size it was allocated with. */
  predicate FreesHeld(requests: seq<Request>) {
    requests == [] ||
    var before, last := requests[..|requests| - 1], requests[|requests| - 1];
    FreesHeld(before) && (last.Free? && last.buffer.address != 0 ==> last.buffer in Outstanding(before))
  }

  lemma FreesHeldAppend(requests: seq<Request>, r: Request)
    ensures FreesHeld(requests + [r]) <==>
      FreesHeld(requests) && (r.Free? && r.buffer.address != 0 ==> r.buffer in Outstanding(requests))
  {
    assert (requests + [r])[..|requests|] == requests;
  }

  /** The requests made so far and the table agree: what is outstanding is what active slots hold. */
  predicate Agree(table: seq<Slot>, requests: seq<Request>) {
    Outstanding(requests) == Live(table) && FreesHeld(requests)
  }

  lemma Exchange(a: multiset<Buffer>, b: multiset<Buffer>, l: multiset<Buffer>, x: multiset<Buffer>, y: multiset<Buffer>)
    requires a + x == b + y
    ensures a + l + x == b + l + y
  {
    assert a + l + x == a + x + l;
    assert b + l + y == b + y + l;
  }

  lemma LiveAppend(front: seq<Slot>, last: Slot)
    ensures Live(front + [last]) == Live(front) + One(last)
  {
    assert (front + [last])[..|front|] == front;
  }

  lemma UpdateLast(front: seq<Slot>, last: Slot, s: Slot)
    ensures Live(front + [s]) + One(last) == Live(front + [last]) + One(s)
  {
    LiveAppend(front, last);
    LiveAppend(front, s);
    Exchange(One(s), One(last), Live(front), One(last), One(s));
  }

  lemma UpdateFront(front: seq<Slot>, updated: seq<Slot>, last: Slot, x: multiset<Buffer>, y: multiset<Buffer>)
    requires Live(updated) + x == Live(front) + y
    ensures Live(updated + [last]) + x == Live(front + [last]) + y
  {
    LiveAppend(front, last);
    LiveAppend(updated, last);
    Exchange(Live(updated), Live(front), One(last), x, y);
  }

  lemma {:induction false} LiveUpdate(table: seq<Slot>, i: nat, s: Slot)
    requires i < |table|
    ensures Live(table[i := s]) + One(table[i]) == Live(table) + One(s)
  {
    var n := |table| - 1;
    var front, last := table[..n], table[n];
    assert table == front + [last];
    if i == n {
      assert table[i := s] == front + [s];
      UpdateLast(front, last, s);
    } else {
      LiveUpdate(front, i, s);
      assert table[i := s] == front[i := s] + [last];
      UpdateFront(front, front[i := s], last, One(table[i]), One(s));
    }
  }

  /** A reservation adds its buffer to what is outstanding and to what is live. */
  lemma ReserveKeeps(table: seq<Slot>, requests: seq<Request>, k: nat, s: Slot)
    requires k < |table| && !table[k].active && s.active
    requires Agree(table, requests)
    ensures Agree(table[k := s], requests + [Alloc(BufferOf(s))])
  {
    OutstandingAppend(requests, Alloc(BufferOf(s)));
    FreesHeldAppend(requests, Alloc(BufferOf(s)));
    LiveUpdate(table, k, s);
    assert Live(table[k := s]) == Live(table) + One(s);
  }

  lemma {:induction false} ActiveIsLive(table: seq<Slot>, i: nat)
    requires i < |table| && table[i].active && table[i].address != 0
    ensures BufferOf(table[i]) in Live(table)
  {
    if i < |table| - 1 {
      ActiveIsLive(table[..|table| - 1], i);
    }
  }

  /** A release of an active slot takes its buffer from both. */
  lemma ReleaseKeeps(table: seq<Slot>, requests: seq<Request>, i: nat)
    requires i < |table| && table[i].active
    requires Agree(table, requests)
    ensures Agree(table[i := table[i].(active := false)], requests + [Free(BufferOf(table[i]))])
  {
    OutstandingAppend(requests, Free(BufferOf(table[i])));
    FreesHeldAppend(requests, Free(BufferOf(table[i])));
    if table[i].address != 0 {
      ActiveIsLive(table, i);
    }
    LiveUpdate(table, i, table[i].(active := false));
    var after := Live(table[i := table[i].(active := false)]);
    assert after + One(table[i]) == Live(table);
    TakeAway(after, One(table[i]));
  }

  /** Releasing a slot keeps the agreement exactly when the slot is active, or holds no address. */
  lemma ReleaseExact(table: seq<Slot>, requests: seq<Request>, i: nat)
    requires i < |table| && Agree(table, requests)
    ensures Agree(table[i := table[i].(active := false)], requests + [Free(BufferOf(table[i]))])
       <==> table[i].active || table[i].address == 0
  {
    if table[i].active {
      ReleaseKeeps(table, requests, i);
    } else {
      assert table[i := table[i].(active := false)] == table;
      OutstandingAppend(requests, Free(BufferOf(table[i])));
      FreesHeldAppend(requests, Free(BufferOf(table[i])));
    }
  }

  lemma TakeAway(a: multiset<Buffer>, x: multiset<Buffer>)
    ensures a + x - x == a
  {
  }

  lemma {:induction false} NoneLive(table: seq<Slot>)
    requires forall i :: 0 <= i < |table| ==> !table[i].active
    ensures Live(table) == multiset{}
  {
    if table != [] {
      NoneLive(table[..|table| - 1]);
    }
  }

  /** The number of active slots: outstanding allocations and failed ones. */
  function Active(table: seq<Slot>): (n: nat)
    ensures n <= |table|
  {
    if table == [] then 0
    else Active(table[..|table| - 1]) + if table[|table| - 1].active then 1 else 0
  }

  lemma {:induction false} ActiveUpdate(table: seq<Slot>, i: nat)
    requires i < |table| && table[i].active
    ensures Active(table[i := table[i].(active := false)]) == Active(table) - 1
  {
    var n := |table| - 1;
    var updated := table[i := table[i].(active := false)];
    if i == n {
      assert updated[..n] == table[..n];
    } else {
      ActiveUpdate(table[..n], i);
      assert updated[..n] == table[..n][i := table[i].(active := false)];
    }
  }

  lemma FreeSlotFound(table: seq<Slot>, i: nat)
    requires |table| == SLOTS && i < SLOTS && !table[i].active
    ensures LeastFree(table, 0) <= i
  {
    var k := LeastFree(table, 0);
    assert forall j :: 0 <= j < k ==> table[j].active;
  }

  /** Releasing an active slot makes one slot free again, at this index or below, and takes its
      buffer from what is outstanding. */
  lemma ReleaseGivesBack(table: seq<Slot>, requests: seq<Request>, i: nat)
    requires |table| == SLOTS && i < SLOTS && Agree(table, requests)
    requires table[i].active
    ensures var t, rs := table[i := table[i].(active := false)], requests + [Free(BufferOf(table[i]))];
      && LeastFree(t, 0) <= i && Active(t) == Active(table) - 1
      && Outstanding(rs) + One(table[i]) == Outstanding(requests)
  {
    var s := table[i].(active := false);
    ActiveUpdate(table, i);
    FreeSlotFound(table[i := s], i);
    ReleaseKeeps(table, requests, i);
    LiveUpdate(table, i, s);
    assert One(s) == multiset{};
  }

  lemma {:induction false} AllActive(table: seq<Slot>)
    ensures Active(table) == |table| <==> forall i :: 0 <= i < |table| ==> table[i].active
  {
    if table != [] {
      AllActive(table[..|table| - 1]);
    }
  }

  predicate NoneFailed(table: seq<Slot>) {
    forall i :: 0 <= i < |table| && table[i].active ==> table[i].address != 0
  }

  lemma NoneFailedAppend(front: seq<Slot>, last: Slot)
    ensures NoneFailed(front + [last]) <==> NoneFailed(front) && (last.active ==> last.address != 0)
  {
    var table := front + [last];
    assert table[|front|] == last;
    assert forall i :: 0 <= i < |front| ==> table[i] == front[i];
  }

  lemma OneCount(s: Slot)
    ensures |One(s)| == if s.active && s.address != 0 then 1 else 0
  {
  }

  lemma {:induction false} LiveCount(table: seq<Slot>)
    ensures |Live(table)| <= Active(table)
    ensures |Live(table)| == Active(table) <==> NoneFailed(table)
  {
    if table != [] {
      var front, last := table[..|table| - 1], table[|table| - 1];
      assert table == front + [last];
      LiveCount(front);
      LiveAppend(front, last);
      OneCount(last);
      NoneFailedAppend(front, last);
    }
  }

  /** Without failed allocations the table is full exactly when 16 allocations are outstanding. */
  lemma FullIffAllOutstanding(table: seq<Slot>, requests: seq<Request>)
    requires |table| == SLOTS && Agree(table, requests)
    requires NoneFailed(table)
    ensures Active(table) == SLOTS <==> |Outstanding(requests)| == SLOTS
  {
    LiveCount(table);
  }

  /** What a release comes to: the answer 0, the answer -1, or an access outside the table. */
  datatype Release = Released | Refused | OutOfBounds

  /** The guard refuses what is greater than the number of slots. */
  function ReleaseOf(i: int): Release {
    if i > SLOTS then Refused else if InTable(i) then Released else OutOfBounds
  }

  predicate InTable(i: int) {
    0 <= i < SLOTS
  }

  /** A release accesses memory outside the table exactly for the id 16 and negative ids; it would
      never do so if the guard were i >= 16 and ids were unsigned. */
  lemma OutOfBoundsIff(i: int)
    ensures ReleaseOf(i) == OutOfBounds <==> i == 16 || i < 0
    ensures ReleaseOf(16) == OutOfBounds
  {
  }

  /** The size kept as a signed number is the one allocated. */
  lemma SizeKept(size: u32, address: int)
    ensures BufferOf(Slot(true, Signed32(size), address)) == Buffer(address, size)
  {
  }

  // ----- The module

  class Table {
    const table: array<Slot>
    /** The requests made to the kernel. */
    ghost var requests: seq<Request>

    /** The outstanding allocations are exactly those in active slots, and no free was in vain. */
    ghost predicate Valid()
      reads this, table
    {
      table.Length == SLOTS && Agree(table[..], requests)
    }

    constructor ()
      ensures Valid() && fresh(table) && requests == []
      ensures forall i :: 0 <= i < SLOTS ==> !table[i].active
    {
      table := new Slot[SLOTS](_ => Slot(false, 0, 0));
      requests := [];
      new;
      NoneLive(table[..]);
    }

    /** Reserves the least free slot; address is what the kernel's allocation answers, 0 when it
        fails. The answer is -1 when no slot is free or the allocation fails. */
    method ReserveBuffer(size: u32, address: int) returns (id: int)
      requires Valid()
      modifies this, table
      ensures Valid()
      ensures var k := LeastFree(old(table[..]), 0);
        && id == (if k < SLOTS && address != 0 then k else -1)
        && (k == SLOTS ==> table[..] == old(table[..]) && requests == old(requests))
        && (k < SLOTS && address != 0 ==> table[..] == old(table[..])[k := Slot(true, Signed32(size), address)])
        && (k < SLOTS && address == 0 ==> table[..] == old(table[..])[k := old(table[k]).(active := true, address := 0)])
        && (k < SLOTS ==> requests == old(requests) + [Alloc(Buffer(address, size))])
      ensures id == -1 <==> Active(old(table[..])) == SLOTS || address == 0
    {
      var i := FindFree();
      AllActive(table[..]);
      if i == SLOTS {
        return -1;
      }
      ghost var before, asked := table[..], requests;
      Allocate(i, size, address);
      SizeKept(size, address);
      ReserveKeeps(before, asked, i, if address == 0 then before[i].(active := true, address := 0) else table[i]);
      return if address == 0 then -1 else i;
    }

    method FindFree() returns (i: nat)
      requires table.Length == SLOTS
      ensures i == LeastFree(table[..], 0)
    {
      i := 0;
      while i < SLOTS && table[i].active
        invariant 0 <= i <= SLOTS && LeastFree(table[..], 0) == LeastFree(table[..], i)
      {
        i := i + 1;
      }
    }

    method Allocate(i: nat, size: u32, address: int)
      requires table.Length == SLOTS && i < SLOTS
      modifies this, table
      ensures requests == old(requests) + [Alloc(Buffer(address, size))]
      ensures table[..] == old(table[..])[i :=
                if address == 0 then old(table[i]).(active := true, address := 0) else Slot(true, Signed32(size), address)]
    {
      table[i] := table[i].(active := true);
      table[i] := table[i].(address := address);
      requests := requests + [Alloc(Buffer(address, size))];
      if address != 0 {
        table[i] := table[i].(size := Signed32(size));
      }
    }

    /** Frees the buffer of a slot, active or not: only for an active slot, or one that never held
        an address, does the table stay valid. The program's guard refuses ids above 16; an id that
        passes it but is outside the table is an access out of bounds, and nothing is said of what
        happens then. */
    method ReleaseBuffer(i: int) returns (r: Release)
      requires Valid()
      modifies this, table
      ensures r == ReleaseOf(i)
      ensures r.Refused? <==> i > 16
      ensures r.OutOfBounds? <==> i == 16 || i < 0
      ensures r.Released? <==> 0 <= i < 16
      ensures r.Refused? ==> Valid() && table[..] == old(table[..]) && requests == old(requests)
      ensures r.Released? ==>
        && 0 <= i < SLOTS && table[..] == old(table[..])[i := old(table[i]).(active := false)]
        && requests == old(requests) + [Free(BufferOf(old(table[i])))]
        && (Valid() <==> old(table[i]).active || old(table[i]).address == 0)
      ensures r.Released? && old(table[i]).active ==>
        && Active(table[..]) == Active(old(table[..])) - 1 && LeastFree(table[..], 0) <= i
        && Outstanding(requests) + One(old(table[i])) == Outstanding(old(requests))
    {
      if i > SLOTS {
        return Refused;
      }
      if !(0 <= i < table.Length) {
        return OutOfBounds;
      }
      ReleaseExact(table[..], requests, i);
      if table[i].active {
        ReleaseGivesBack(table[..], requests, i);
      }
      ghost var before := table[..];
      table[i] := table[i].(active := false);
      requests := requests + [Free(BufferOf(table[i]))];
      assert table[..] == before[i := before[i].(active := false)];
      return Released;
    }

    /** What a release gives back can be reserved again. */
    method ReleaseAndReserve(i: nat, size: u32, address: int) returns (id: int)
      requires Valid() && i < SLOTS && table[i].active && address != 0
      modifies this, table
      ensures Valid() && 0 <= id <= i && table[id].active
      ensures BufferOf(table[id]) == Buffer(address, size)
    {
      var r := ReleaseBuffer(i);
      id := ReserveBuffer(size, address);
      SizeKept(size, address);
    }

    /** Frees everything that is still in use, each buffer once. */
    method Cleanup()
      requires Valid()
      modifies this, table
      ensures Valid() && Outstanding(requests) == multiset{}
      ensures table[..] == Cleared(old(table[..]), SLOTS) && forall i :: 0 <= i < SLOTS ==> !table[i].active
      ensures requests == old(requests) + FreesOf(old(table[..]))
    {
      var i := 0;
      ghost var slots, asked := table[..], requests;
      assert slots[..0] == [];
      while i < SLOTS
        invariant 0 <= i <= SLOTS && Valid()
        invariant table[..] == Cleared(slots, i)
        invariant requests == asked + FreesOf(slots[..i])
      {
        ClearedOneMore(slots, i);
        FreesOneMore(asked, slots, i);
        FreeSlot(i);
        i := i + 1;
      }
      assert slots[..SLOTS] == slots;
      NoneLive(table[..]);
    }

    method FreeSlot(i: nat)
      requires Valid() && i < SLOTS
      modifies this, table
      ensures Valid() && table[..] == old(table[..])[i := old(table[..])[i].(active := false)]
      ensures requests == old(requests) + FreeOf(old(table[..])[i])
    {
      if table[i].active {
        ghost var before := table[..];
        ReleaseKeeps(before, requests, i);
        requests := requests + [Free(BufferOf(table[i]))];
        table[i] := table[i].(active := false);
        assert table[..] == before[i := before[i].(active := false)];
      }
    }
  }

  /** The first n slots are no longer active. */
  function Cleared(table: seq<Slot>, n: nat): (t: seq<Slot>)
    requires n <= |table|
    ensures |t| == |table|
  {
    seq(|table|, k requires 0 <= k < |table| => if k < n then table[k].(active := false) else table[k])
  }

  lemma ClearedOneMore(table: seq<Slot>, n: nat)
    requires n < |table|
    ensures Cleared(table, n)[n] == table[n]
    ensures Cleared(table, n)[n := table[n].(active := false)] == Cleared(table, n + 1)
  {
  }

  function FreeOf(s: Slot): seq<Request> {
    if s.active then [Free(BufferOf(s))] else []
  }

  /** One request to free for each active slot, in order. */
  function FreesOf(table: seq<Slot>): seq<Request> {
    if table == [] then [] else FreesOf(table[..|table| - 1]) + FreeOf(table[|table| - 1])
  }

  lemma FreesOneMore(asked: seq<Request>, table: seq<Slot>, i: nat)
    requires i < |table|
    ensures asked + FreesOf(table[..i]) + FreeOf(table[i]) == asked + FreesOf(table[..i + 1])
  {
    assert table[..i + 1][..i] == table[..i];
  }

  /** cleanup frees each outstanding allocation once: its requests name the live buffers, with
      their sizes and their multiplicity. */
  lemma {:induction false} CleanupFreesLive(table: seq<Slot>)
    ensures Freed(FreesOf(table)) == Live(table)
  {
    if table != [] {
      var before := table[..|table| - 1];
      CleanupFreesLive(before);
      FreedOneMore(FreesOf(before), table[|table| - 1]);
    }
  }

  lemma FreedOneMore(requests: seq<Request>, s: Slot)
    ensures Freed(requests + FreeOf(s)) == Freed(requests) + One(s)
  {
    if s.active {
      FreedAppend(requests, Free(BufferOf(s)));
    } else {
      assert requests + FreeOf(s) == requests;
    }
  }

  function FreedBy(r: Request): multiset<Buffer> {
    match r
    case Alloc(_) => multiset{}
    case Free(b) => if b.address != 0 then multiset{b} else multiset{}
  }

  lemma FreedAppend(requests: seq<Request>, r: Request)
    ensures Freed(requests + [r]) == Freed(requests) + FreedBy(r)
  {
    assert (requests + [r])[..|requests|] == requests;
  }

  /** The buffers that are freed, but for null pointers. */
  function Freed(requests: seq<Request>): multiset<Buffer> {
    if requests == [] then multiset{}
    else Freed(requests[..|requests| - 1]) + FreedBy(requests[|requests| - 1])
  }
}
