/** The fixed array of connection slots and the queue of free slot ids. */
module Registries {
  import opened Slots
  import opened Wrappers

  datatype Registry = Registry(slots: seq<Slot>, free: seq<nat>) {
    /** The free queue lists each unused slot once and nothing else. */
    predicate Valid() {
      && (forall i :: 0 <= i < |free| ==> free[i] < |slots|)
      && (forall i, j :: 0 <= i < j < |free| ==> free[i] != free[j])
      && (forall id :: 0 <= id < |slots| ==> (id in free <==> !slots[id].Live()))
      && (forall id :: 0 <= id < |slots| && !slots[id].Live() ==> slots[id] == CLEARED)
    }
  }

  /** A new registry: every slot unused and queued. */
  function AllFree(count: nat): Registry {
    Registry(seq(count, _ => CLEARED), seq(count, i => i))
  }

  lemma AllFreeValid(count: nat)
    ensures AllFree(count).Valid()
  {
    var free := AllFree(count).free;
    forall k | 0 <= k < count
      ensures k in free
    {
      assert free[k] == k;
    }
  }

  /** `acquire_slot` on a registry with a free slot. */
  function Acquire(r: Registry, fd: int, session: nat): Registry
    requires r.free != [] && r.free[0] < |r.slots|
  {
    Registry(r.slots[r.free[0] := Opened(fd, session)], r.free[1..])
  }

  /** `release_slot`: a second release of the same slot is ignored. */
  function Release(r: Registry, id: nat): Registry
    requires id < |r.slots|
  {
    if !r.slots[id].Live() then r else Registry(r.slots[id := CLEARED], r.free + [id])
  }

  /** Acquiring keeps the partition exactly when the descriptor is not 0: a connection on
      descriptor 0 takes its slot out of the free queue for good. */
  lemma AcquireKeepsPartition(r: Registry, fd: int, session: nat)
    requires r.Valid() && r.free != []
    ensures Acquire(r, fd, session).Valid() <==> fd != 0
  {
    var next := Acquire(r, fd, session);
    var id := r.free[0];
    assert id !in next.free;
    forall k | 0 <= k < |r.slots| && k != id
      ensures k in next.free <==> k in r.free
    {
      if k in r.free {
        var i :| 0 <= i < |r.free| && r.free[i] == k;
        assert next.free[i - 1] == k;
      }
    }
  }

  lemma ReleaseKeepsPartition(r: Registry, id: nat)
    requires r.Valid() && id < |r.slots|
    ensures Release(r, id).Valid()
    ensures Release(Release(r, id), id) == Release(r, id)
  {
    var next := Release(r, id);
    if r.slots[id].Live() {
      assert next.free[|r.free|] == id;
      assert forall k :: k in next.free <==> k in r.free || k == id;
    }
  }

  /** Every slot can be had again: releasing what was just acquired puts it at the end of
      the queue and leaves all other slots alone. */
  lemma AcquireThenRelease(r: Registry, fd: int, session: nat)
    requires r.Valid() && r.free != [] && fd != 0
    ensures Release(Acquire(r, fd, session), r.free[0]) == Registry(r.slots, r.free[1..] + [r.free[0]])
  {
    var id := r.free[0];
    assert id in r.free;
    assert r.slots[id := Opened(fd, session)][id := CLEARED] == r.slots;
  }

  /** The descriptors a rebuilt read or write set holds. */
  ghost predicate InSet(slots: seq<Slot>, status: Status, fd: int) {
    exists id :: 0 <= id < |slots| && slots[id].Live() && slots[id].status == status && slots[id].fd == fd
  }

  class ConnectionRegistry {
    const slots: seq<ConnectionSlot>
    var free: seq<nat>

    /** Distinct slot objects over distinct input buffers. */
    ghost predicate Valid()
      reads this, slots, set s | s in slots :: s.input
    {
      && (forall s :: s in slots ==> s.Valid())
      && (forall i, j :: 0 <= i < j < |slots| ==> slots[i] != slots[j] && slots[i].input != slots[j].input)
      && (forall i :: 0 <= i < |free| ==> free[i] < |slots|)
    }

    ghost function View(): Registry
      reads this, slots
    {
      Registry(seq(|slots|, i requires 0 <= i < |slots| reads slots => slots[i].View()), free)
    }

    constructor (slotCount: nat)
      ensures Valid() && View() == AllFree(slotCount)
    {
      var made: seq<ConnectionSlot>, ids: seq<nat> := [], [];
      for i := 0 to slotCount
        invariant |made| == i && ids == seq(i, k => k)
        invariant forall k :: 0 <= k < i ==>
          fresh(made[k]) && fresh(made[k].input) && made[k].Valid() && made[k].View() == CLEARED
        invariant forall j, k :: 0 <= j < k < i ==> made[j] != made[k] && made[j].input != made[k].input
      {
        var slot := new ConnectionSlot();
        made := made + [slot];
        ids := ids + [i];
      }
      slots, free := made, ids;
    }

    /** `acquire_slot`: None is the -1 of a full registry. */
    method AcquireSlot(fd: int, session: nat) returns (id: Option<nat>)
      requires Valid()
      modifies this, slots, set s | s in slots :: s.input
      ensures Valid()
      ensures id == if old(free) == [] then None else Some(old(free)[0])
      ensures View() == if old(free) == [] then old(View()) else Acquire(old(View()), fd, session)
    {
      if |free| == 0 {
        return None;
      }
      var k := free[0];
      ghost var before := View();
      free := free[1..];
      slots[k].Init(fd, session);
      assert View().slots == before.slots[k := Opened(fd, session)];
      return Some(k);
    }

    method ReleaseSlot(id: nat) returns (closed: Option<int>)
      requires Valid() && id < |slots|
      modifies this, slots, set s | s in slots :: s.input
      ensures Valid()
      ensures View() == Release(old(View()), id)
      ensures closed == if old(View()).slots[id].Live() then Some(old(slots[id].fd)) else None
    {
      if slots[id].fd == 0 {
        return None;
      }
      ghost var before := View();
      closed := slots[id].Clear();
      assert View().slots == before.slots[id := CLEARED];
      free := free + [id];
    }

    /** `populate_socket_sets`: a live slot goes by its status; an idle one into neither set. */
    method PopulateSocketSets() returns (readSet: set<int>, writeSet: set<int>, maxFd: int)
      requires Valid()
      ensures forall fd :: fd in readSet <==> InSet(View().slots, Readable, fd)
      ensures forall fd :: fd in writeSet <==> InSet(View().slots, Writable, fd)
      ensures forall id :: 0 <= id < |slots| && View().slots[id].Live() ==> slots[id].fd <= maxFd
      ensures maxFd == 0 || exists id :: 0 <= id < |slots| && slots[id].fd == maxFd
    {
      readSet, writeSet, maxFd := {}, {}, 0;
      ghost var all := View().slots;
      for i := 0 to |slots|
        invariant forall fd :: fd in readSet <==> InSet(all[..i], Readable, fd)
        invariant forall fd :: fd in writeSet <==> InSet(all[..i], Writable, fd)
        invariant forall id :: 0 <= id < i && all[id].Live() ==> slots[id].fd <= maxFd
        invariant maxFd == 0 || exists id :: 0 <= id < |slots| && slots[id].fd == maxFd
      {
        var slot := slots[i];
        InSetStep(all, i, Readable);
        InSetStep(all, i, Writable);
        if slot.fd != 0 {
          if slot.status == Readable {
            readSet := readSet + {slot.fd};
          } else if slot.status == Writable {
            writeSet := writeSet + {slot.fd};
          }
          if slot.fd > maxFd {
            maxFd := slot.fd;
          }
        }
      }
      assert all[..|slots|] == all;
    }
  }

  lemma InSetStep(slots: seq<Slot>, i: nat, status: Status)
    requires i < |slots|
    ensures forall fd :: InSet(slots[..i + 1], status, fd) <==>
              InSet(slots[..i], status, fd) || (slots[i].Live() && slots[i].status == status && slots[i].fd == fd)
  {
    var old', new' := slots[..i], slots[..i + 1];
    assert new' == old' + [slots[i]];
    forall fd
      ensures InSet(new', status, fd) <==>
              InSet(old', status, fd) || (slots[i].Live() && slots[i].status == status && slots[i].fd == fd)
    {
      if InSet(old', status, fd) {
        var id :| 0 <= id < i && old'[id].Live() && old'[id].status == status && old'[id].fd == fd;
        assert new'[id] == old'[id];
      }
      if InSet(new', status, fd) {
        var id :| 0 <= id < i + 1 && new'[id].Live() && new'[id].status == status && new'[id].fd == fd;
        if id < i {
          assert old'[id] == new'[id];
        }
      }
      assert new'[i] == slots[i];
    }
  }
}
