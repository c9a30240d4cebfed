// sbuf_t and its operations on the heap, run without interruption. The write and the
// read are the ring operations that the interleaved model takes as single steps.
module Sbuf {
  import opened Wrappers
  import opened Ring

  class Sbuf {
    var buf: array<Option<Job>>
    var n: nat
    var front: nat
    var rear: nat
    var mutex: int               // semaphore values
    var slots: int
    var items: int

    ghost predicate Valid()
      reads this
    {
      n == buf.Length
    }

    ghost function Cells(): Ring
      reads this, buf
    {
      Ring(buf[..], front, rear)
    }

    // Nobody is inside: the semaphores count what is there.
    ghost predicate Quiet()
      reads this
    {
      && n == buf.Length && mutex == 1
      && front <= rear <= front + n
      && items == rear - front && slots == n - items
    }

    ghost function Waiting(): seq<Option<Job>>
      reads this, buf
      requires Quiet()
    {
      Queue(Cells())
    }

    // sbuf_init
    constructor (n: nat)
      ensures Valid() && fresh(buf)
      ensures this.n == n && mutex == 1 && slots == n && items == 0
      ensures Cells().n() == n && Quiet() && Waiting() == []
    {
      buf := new Option<Job>[n](_ => None);
      this.n := n;
      front := 0;
      rear := 0;
      mutex := 1;
      slots := n;
      items := 0;
    }

    // Enabled when neither P blocks; a slot implies a cell.
    method Insert(item: Job)
      requires Valid() && slots > 0 && mutex > 0 && n > 0
      modifies this, buf
      ensures Valid() && buf == old(buf) && n == old(n)
      ensures Cells() == Write(old(Cells()), item)
      ensures mutex == old(mutex) && slots == old(slots) - 1 && items == old(items) + 1
      ensures old(Quiet()) ==> Quiet() && Waiting() == old(Waiting()) + [Some(item)]
    {
      ghost var before := Cells();
      slots := slots - 1;
      mutex := mutex - 1;
      rear := rear + 1;
      buf[rear % n] := Some(item);
      mutex := mutex + 1;
      items := items + 1;
      if old(Quiet()) {
        WriteEnqueues(before, item);
      }
    }

    // With no cells at all the original returns NULL and keeps the mutex.
    method Remove() returns (item: Option<Job>)
      requires Valid() && items > 0 && mutex > 0
      modifies this
      ensures Valid() && buf == old(buf) && n == old(n) && items == old(items) - 1
      ensures n == 0 ==>
        item == None && Cells() == old(Cells()) && mutex == old(mutex) - 1 && slots == old(slots)
      ensures n > 0 ==>
        (Cells(), item) == Read(old(Cells())) && mutex == old(mutex) && slots == old(slots) + 1
      ensures old(Quiet()) ==> Quiet() && old(Waiting()) == [item] + Waiting()
    {
      ghost var before := Cells();
      items := items - 1;
      mutex := mutex - 1;
      if n == 0 {
        return None;
      }
      front := front + 1;
      item := buf[front % n];
      mutex := mutex + 1;
      slots := slots + 1;
      if old(Quiet()) {
        ReadDequeues(before);
      }
    }
  }
}
