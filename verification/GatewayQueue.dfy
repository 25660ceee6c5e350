/**
 The packet queue of the gateway: a singly linked list over a static pool of entries. The list
 implements the bounded FIFO `contents`.
 */
module GatewayQueue {
  import opened Bytes

  class QueueEntry {
    var next: QueueEntry?
    var inUse: bool
    var size: nat
    const data: array<byte>

    constructor (capacity: nat)
      ensures next == null && !inUse && size == 0 && data.Length == capacity && fresh(data)
    {
      next, inUse, size := null, false, 0;
      data := new byte[capacity](_ => 0);
    }
  }

  ghost predicate Distinct<T>(s: seq<T>) {
    forall i, j :: 0 <= i < j < |s| ==> s[i] != s[j]
  }

  ghost function Elements<T>(s: seq<T>): set<T> {
    set x | x in s
  }

  lemma {:induction false} DistinctAppend<T>(s: seq<T>, x: T)
    requires Distinct(s) && x !in s
    ensures Distinct(s + [x]) && forall e :: e in s + [x] <==> e in s || e == x
  {
  }

  lemma {:induction false} DistinctCardinality<T>(s: seq<T>)
    requires Distinct(s)
    ensures |Elements(s)| == |s|
  {
    if s == [] {
      assert Elements(s) == {};
    } else {
      var last := s[|s| - 1];
      DistinctCardinality(s[..|s| - 1]);
      assert Elements(s) == Elements(s[..|s| - 1]) + {last};
    }
  }

  lemma {:induction false} SubsetCardinality<T>(a: set<T>, b: set<T>)
    requires a <= b
    ensures |a| <= |b|
    ensures |a| == |b| ==> a == b
  {
    assert b == a + (b - a);
  }

  method CopyInto(buffer: array<byte>, data: seq<byte>)
    requires |data| <= buffer.Length
    modifies buffer
    ensures buffer[..|data|] == data && buffer[|data|..] == old(buffer[|data|..])
  {
    for i := 0 to |data|
      invariant buffer[..i] == data[..i] && buffer[|data|..] == old(buffer[|data|..])
    {
      buffer[i] := data[i];
    }
  }

  class Queue {
    const capacity: nat
    const entries: seq<QueueEntry>
    ghost const buffers: set<array<byte>>
    var head: QueueEntry?
    var tail: QueueEntry?
    ghost var queued: seq<QueueEntry>      // the list, from head to tail
    ghost var taken: set<QueueEntry>       // allocated, but not in the list
    ghost var contents: seq<seq<byte>>     // the queued packets, oldest first

    /** The pool: entries and buffers that never overlap. */
    ghost predicate Pool() {
      && Distinct(entries)
      && (forall e :: e in entries ==> e.data.Length == capacity && e.data in buffers)
      && (forall e, f :: e in entries && f in entries && e != f ==> e.data != f.data)
    }

    ghost predicate Linked()
      reads this, entries
    {
      && Distinct(queued)
      && (forall k :: 0 <= k < |queued| ==> queued[k] in entries && queued[k] !in taken)
      && (forall k :: 0 <= k < |queued| - 1 ==> queued[k].next == queued[k + 1])
      && (queued == [] ==> head == null && tail == null)
      && (queued != [] ==> head == queued[0] && tail == queued[|queued| - 1] && tail.next == null)
    }

    /** `in_use` marks the queued and the taken entries; a free entry points nowhere. */
    ghost predicate Accounted()
      reads this, entries
    {
      && (forall e :: e in taken ==> e in entries)
      && (forall e :: e in entries ==>
            && (e.inUse <==> e in queued || e in taken)
            && e.size <= capacity
            && (!e.inUse ==> e.next == null))
    }

    ghost predicate Holds()
      requires Pool() && Linked() && Accounted()
      reads this, entries, buffers
    {
      |contents| == |queued| && forall k :: 0 <= k < |queued| ==> contents[k] == queued[k].data[..queued[k].size]
    }

    ghost predicate Valid()
      reads this, entries, buffers
    {
      Pool() && Linked() && Accounted() && Holds()
    }

    /** The statically allocated pool, all free. */
    constructor (count: nat, capacity: nat)
      ensures Valid() && this.capacity == capacity && |entries| == count
      ensures contents == [] && taken == {} && fresh(entries) && fresh(buffers)
    {
      var pool: seq<QueueEntry>, datas: set<array<byte>> := [], {};
      while |pool| < count
        invariant |pool| <= count && Distinct(pool) && fresh(pool) && fresh(datas)
        invariant forall e :: e in pool ==> e.data in datas && e.data.Length == capacity
        invariant forall e :: e in pool ==> !e.inUse && e.next == null && e.size == 0
        invariant forall e, f :: e in pool && f in pool && e != f ==> e.data != f.data
      {
        var e := new QueueEntry(capacity);
        pool, datas := pool + [e], datas + {e.data};
      }
      this.capacity, entries, buffers := capacity, pool, datas;
      head, tail, queued, taken, contents := null, null, [], {}, [];
    }

    /** All entries are in use exactly when the pool is exhausted. */
    lemma {:induction false} FullIffExhausted()
      requires Valid()
      ensures |queued| + |taken| <= |entries|
      ensures (forall e :: e in entries ==> e.inUse) <==> |queued| + |taken| == |entries|
    {
      DistinctCardinality(queued);
      DistinctCardinality(entries);
      var used := Elements(queued) + taken;
      assert used <= Elements(entries);
      assert |used| == |queued| + |taken|;
      SubsetCardinality(used, Elements(entries));
      if forall e :: e in entries ==> e.inUse {
        assert used == Elements(entries);
      }
    }

    method NewEntry() returns (ent: QueueEntry?)
      requires Valid()
      modifies this`taken, entries`inUse
      ensures Valid()
      ensures ent == null <==> |queued| + |old(taken)| == |entries|
      ensures ent == null ==> taken == old(taken)
      ensures ent != null ==> ent !in old(taken) && taken == old(taken) + {ent} && ent.next == null
    {
      FullIffExhausted();
      for i := 0 to |entries|
        invariant forall k :: 0 <= k < i ==> entries[k].inUse
        invariant taken == old(taken) && forall e :: e in entries ==> e.inUse == old(e.inUse)
      {
        ent := entries[i];
        if !ent.inUse {
          Reserve(ent);
          return;
        }
      }
      ent := null;
    }

    method Reserve(ent: QueueEntry)
      requires Valid() && ent in entries && !ent.inUse
      modifies this`taken, ent`inUse
      ensures Valid() && ent !in old(taken) && taken == old(taken) + {ent}
    {
      assert ent !in queued && ent !in taken;
      ent.inUse := true;
      taken := taken + {ent};
    }

    method FreeEntry(ent: QueueEntry)
      requires Valid() && ent in taken
      modifies this`taken, ent`next, ent`inUse
      ensures Valid() && taken == old(taken) - {ent}
    {
      ent.next := null;
      ent.inUse := false;
      taken := taken - {ent};
    }

    method Push(ent: QueueEntry)
      requires Valid() && ent in taken && ent.next == null
      modifies this, entries`next
      ensures Valid() && taken == old(taken) - {ent}
      ensures contents == old(contents) + [ent.data[..ent.size]]
    {
      if head == null {
        head := ent;
        tail := ent;
      } else {
        assert forall k :: 0 <= k < |queued| - 1 ==> queued[k] != tail;
        tail.next := ent;
        tail := ent;
      }
      Appended(ent);
    }

    /** The bookkeeping of `Push`, once the registers and the last link are set. */
    ghost method Appended(ent: QueueEntry)
      requires Pool() && Accounted() && ent in taken && ent.next == null
      requires Distinct(queued) && forall k :: 0 <= k < |queued| ==> queued[k] in entries && queued[k] !in taken
      requires forall k :: 0 <= k < |queued| - 1 ==> queued[k].next == queued[k + 1]
      requires tail == ent && head == (if queued == [] then ent else queued[0])
      requires queued != [] ==> queued[|queued| - 1].next == ent
      requires |contents| == |queued| && forall k :: 0 <= k < |queued| ==> contents[k] == queued[k].data[..queued[k].size]
      modifies this`queued, this`taken, this`contents
      ensures Valid() && taken == old(taken) - {ent}
      ensures contents == old(contents) + [ent.data[..ent.size]]
    {
      assert ent !in queued;
      DistinctAppend(queued, ent);
      queued, taken, contents := queued + [ent], taken - {ent}, contents + [ent.data[..ent.size]];
      assert Linked();
      assert Accounted();
    }

    method Take() returns (ent: QueueEntry?)
      requires Valid()
      modifies this
      ensures Valid() && (ent == null <==> old(contents) == [])
      ensures ent == null ==> taken == old(taken) && contents == old(contents)
      ensures ent != null ==>
        && ent !in old(taken) && taken == old(taken) + {ent} && ent in entries
        && ent.data[..ent.size] == old(contents)[0] && contents == old(contents)[1..]
    {
      ent := head;
      if ent != null {
        head := ent.next;
        if ent.next == null {
          tail := null;
        }
        queued, taken, contents := queued[1..], taken + {ent}, contents[1..];
        assert forall e :: e in old(queued) <==> e in queued || e == ent;
      }
    }

    method Fill(ent: QueueEntry, data: seq<byte>)
      requires Valid() && ent in taken && |data| <= capacity
      modifies ent`size, ent.data
      ensures Valid() && ent.size == |data| && ent.data[..ent.size] == data
    {
      ent.size := |data|;
      CopyInto(ent.data, data);
    }

    /** `queue_enqueue_content`: the packet is dropped when no entry is free. */
    method EnqueueContent(data: seq<byte>) returns (accepted: bool)
      requires Valid() && |data| <= capacity
      modifies this, entries, buffers
      ensures Valid() && taken == old(taken)
      ensures accepted <==> |old(contents)| + |taken| < |entries|
      ensures contents == if accepted then old(contents) + [data] else old(contents)
    {
      FullIffExhausted();
      var add := NewEntry();
      accepted := add != null;
      if accepted {
        Fill(add, data);
        Push(add);
      }
    }

    method CopyOut(send: QueueEntry, copy: array<byte>)
      requires Valid() && send in taken && copy.Length == capacity && copy !in buffers
      modifies copy
      ensures Valid() && copy[..send.size] == send.data[..send.size]
    {
      CopyInto(copy, send.data[..send.size]);
    }

    /**
     `send_on_idle`: hands over a copy of the oldest packet and releases its entry at once, so
     that the entry can be used again while the copy is being sent.
     */
    method SendOnIdle(copy: array<byte>) returns (size: Option<nat>)
      requires Valid() && copy.Length == capacity && copy !in buffers
      modifies this, entries, copy
      ensures Valid() && taken == old(taken)
      ensures size.None? <==> old(contents) == []
      ensures size.None? ==> contents == old(contents)
      ensures size.Some? ==>
        && size.value <= capacity && copy[..size.value] == old(contents)[0] && contents == old(contents)[1..]
    {
      var send := Take();
      if send == null {
        return None;
      }
      CopyOut(send, copy);
      size := Some(send.size);
      FreeEntry(send);
    }
  }
}
