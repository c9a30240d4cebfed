// The ring of src/sbuf.c: cells, and two counters that only grow.
module Ring {
  import opened Wrappers

  datatype Job = Job(clientFd: int, msgType: int, length: int, text: string)

  // An empty cell is the NULL that calloc left in it.
  datatype Ring = Ring(cells: seq<Option<Job>>, front: nat, rear: nat) {
    function n(): nat { |cells| }
  }

  // buf[(++rear) % n] = job
  function Write(r: Ring, job: Job): Ring
    requires r.n() > 0
  {
    Ring(r.cells[(r.rear + 1) % r.n() := Some(job)], r.front, r.rear + 1)
  }

  // item = buf[(++front) % n]
  function Read(r: Ring): (Ring, Option<Job>)
    requires r.n() > 0
  {
    (r.(front := r.front + 1), r.cells[(r.front + 1) % r.n()])
  }

  // The jobs in the ring, oldest first.
  function Queue(r: Ring): (q: seq<Option<Job>>)
    requires r.front <= r.rear && (r.n() == 0 ==> r.front == r.rear)
    ensures |q| == r.rear - r.front
    ensures forall k :: 0 <= k < |q| ==> r.n() > 0 && q[k] == r.cells[(r.front + k + 1) % r.n()]
  {
    seq(r.rear - r.front, k requires 0 <= k < r.rear - r.front => r.cells[(r.front + k + 1) % r.n()])
  }

  // Counters less than n apart address different cells.
  lemma DifferentCells(j: nat, k: nat, n: nat)
    requires n > 0 && j < k < j + n
    ensures j % n != k % n
  {
    if j % n == k % n {
      var a, b := j / n, k / n;
      assert j == n * a + j % n && k == n * b + k % n;
      assert k - j == n * (b - a);
      if b - a <= 0 {
        Product(n, b - a);
      } else {
        Product(n, b - a - 1);
      }
    }
  }

  lemma Product(n: nat, d: int)
    ensures d >= 0 ==> n * d >= 0
    ensures d <= 0 ==> n * d <= 0
    ensures n * (d + 1) == n * d + n
  {
  }

  // Writing into a ring that is not full appends, and overwrites nothing unread.
  lemma WriteEnqueues(r: Ring, job: Job)
    requires r.front <= r.rear < r.front + r.n()
    ensures Queue(Write(r, job)) == Queue(r) + [Some(job)]
  {
    var n := r.n();
    forall k | 0 <= k < r.rear - r.front ensures Queue(Write(r, job))[k] == Queue(r)[k] {
      DifferentCells(r.front + k + 1, r.rear + 1, n);
    }
  }

  // Reading from a ring that is not empty takes the oldest job.
  lemma ReadDequeues(r: Ring)
    requires r.n() > 0 && r.front < r.rear
    ensures Queue(r) == [Read(r).1] + Queue(Read(r).0)
  {
    var t := Read(r).0;
    forall k | 1 <= k < r.rear - r.front ensures Queue(r)[k] == Queue(t)[k - 1] {
      assert t.front + (k - 1) + 1 == r.front + k + 1;
    }
  }
}
