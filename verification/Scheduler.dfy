/** The round-robin scheduler: a circular doubly-linked list of streams (src/core/scheduler.c). */
module Scheduler {
  import opened Streams

  /** A stream with its scheduler links. */
  class SchedStream {
    var stream: Stream
    var schedNext: SchedStream?
    var schedPrev: SchedStream?
    var scheduled: bool

    constructor (stream: Stream)
      ensures this.stream == stream && !scheduled
    {
      this.stream := stream;
      schedNext, schedPrev, scheduled := null, null, false;
    }
  }

  function Succ(i: nat, n: nat): (j: nat)
    requires i < n
    ensures j < n
  {
    if i + 1 == n then 0 else i + 1
  }

  function Pred(i: nat, n: nat): (j: nat)
    requires i < n
    ensures j < n
  {
    if i == 0 then n - 1 else i - 1
  }

  ghost predicate Distinct<T>(q: seq<T>)
  {
    forall i, j :: 0 <= i < j < |q| ==> q[i] != q[j]
  }

  lemma DistinctAt<T>(q: seq<T>, i: nat, j: nat)
    requires Distinct(q) && i < |q| && j < |q|
    ensures q[i] == q[j] ==> i == j
  {
  }

  lemma DistinctSnoc<T>(q: seq<T>, x: T)
    requires Distinct(q) && x !in q
    ensures Distinct(q + [x])
  {
  }

  /** The front moved to the back. */
  lemma Rotated<T>(q: seq<T>)
    requires Distinct(q) && q != []
    ensures Distinct(q[1..] + [q[0]])
    ensures forall x :: x in q <==> x in q[1..] + [q[0]]
    ensures Without(q[1..] + [q[0]], |q| - 1) == q[1..]
  {
    var r := q[1..] + [q[0]];
    forall x | x in q ensures x in r {
      var i :| 0 <= i < |q| && q[i] == x;
      assert r[if i == 0 then |q| - 1 else i - 1] == x;
    }
  }

  lemma RotatedAt<T>(q: seq<T>, i: nat)
    requires i < |q|
    ensures var r, j := q[1..] + [q[0]], Succ(i, |q|);
            && r[i] == q[j] && Succ(|q| - 1, |q|) == 0
            && r[Succ(i, |r|)] == q[Succ(j, |q|)] && r[Pred(i, |r|)] == q[Pred(j, |q|)]
  {
  }

  ghost function Without<T>(q: seq<T>, k: nat): (r: seq<T>)
    requires k < |q|
    ensures |r| == |q| - 1
  {
    q[..k] + q[k + 1..]
  }

  lemma WithoutMembers<T>(q: seq<T>, k: nat)
    requires Distinct(q) && k < |q|
    ensures Distinct(Without(q, k))
    ensures forall x :: x in q && x != q[k] ==> x in Without(q, k)
    ensures forall x :: x in Without(q, k) ==> x in q && x != q[k]
  {
    forall x | x in q && x != q[k] ensures x in Without(q, k) {
      var i :| 0 <= i < |q| && q[i] == x;
      assert Without(q, k)[if i < k then i else i - 1] == x;
    }
  }

  /** The neighbours after a removal, in terms of the positions before it. */
  lemma WithoutNeighbours<T>(q: seq<T>, k: nat, i: nat)
    requires k < |q| && i < |q| - 1
    ensures var n, r, j := |q|, Without(q, k), if i < k then i else i + 1;
            && r[i] == q[j]
            && r[Succ(i, n - 1)] == q[if j == Pred(k, n) then Succ(k, n) else Succ(j, n)]
            && r[Pred(i, n - 1)] == q[if j == Succ(k, n) then Pred(k, n) else Pred(j, n)]
  {
  }

  class RoundRobin {
    var head: SchedStream?

    /** The streams of the connection, and those in the list, from the head on. */
    ghost var streams: set<SchedStream>
    ghost var queue: seq<SchedStream>

    ghost predicate Linked(i: nat)
      reads this`queue, queue`schedNext, queue`schedPrev
      requires i < |queue|
    {
      && queue[i].schedNext == queue[Succ(i, |queue|)]
      && queue[i].schedPrev == queue[Pred(i, |queue|)]
    }

    /** The links form one circle through the queue, and a stream is in it exactly when it is marked. */
    ghost predicate Valid()
      reads this, streams`scheduled, queue`schedNext, queue`schedPrev
    {
      && Distinct(queue)
      && (forall i :: 0 <= i < |queue| ==> queue[i] in streams)
      && (forall s :: s in streams ==> (s.scheduled <==> s in queue))
      && head == (if queue == [] then null else queue[0])
      && (forall i :: 0 <= i < |queue| ==> Linked(i))
    }

    constructor ()
      ensures Valid() && queue == [] && streams == {}
    {
      head, queue, streams := null, [], {};
    }

    /** `nxp_sched_add`: to the back of the queue, unless it is there already. */
    method Add(s: SchedStream)
      requires Valid() && s in streams
      modifies this`head, this`queue, streams`schedNext, streams`schedPrev, s`scheduled
      ensures Valid()
      ensures queue == if s in old(queue) then old(queue) else old(queue) + [s]
    {
      hide Distinct;
      if s.scheduled {
        return;
      }
      ghost var q := queue;
      DistinctSnoc(q, s);
      if head == null {
        s.schedNext, s.schedPrev := s, s;
        head := s;
      } else {
        var tail := head.schedPrev;
        assert Linked(0) && Linked(|queue| - 1);
        s.schedNext, s.schedPrev := head, tail;
        tail.schedNext := s;
        head.schedPrev := s;
      }
      s.scheduled := true;
      queue := queue + [s];
      forall i | 0 <= i < |queue| ensures Linked(i) {
        if i < |q| {
          assert old(Linked(i));
          DistinctAt(q, i, 0);
          DistinctAt(q, i, |q| - 1);
        }
      }
    }

    /** `nxp_sched_remove`. */
    method Remove(s: SchedStream) returns (ghost k: nat)
      requires Valid() && s in streams
      modifies this`head, this`queue, streams`schedNext, streams`schedPrev, s`scheduled
      ensures Valid() && s !in queue
      ensures if s in old(queue) then k < |old(queue)| && old(queue)[k] == s && queue == Without(old(queue), k)
              else queue == old(queue)
    {
      k := 0;
      if !s.scheduled {
        return;
      }
      k :| 0 <= k < |queue| && queue[k] == s;
      Unlink(s, k);
    }

    /** The links of the queue with `queue[k]` skipped. */
    ghost predicate Skipped(k: nat, j: nat)
      reads this`queue, queue`schedNext, queue`schedPrev
      requires k < |queue| && j < |queue|
    {
      && queue[j].schedNext == queue[if j == Pred(k, |queue|) then Succ(k, |queue|) else Succ(j, |queue|)]
      && queue[j].schedPrev == queue[if j == Succ(k, |queue|) then Pred(k, |queue|) else Pred(j, |queue|)]
    }

    /** Joins the neighbours of `s`. */
    method Bypass(s: SchedStream, ghost k: nat)
      requires Valid() && k < |queue| && queue[k] == s && s.schedNext != s && 1 < |queue|
      modifies streams`schedNext, streams`schedPrev
      ensures forall j :: 0 <= j < |queue| && j != k ==> Skipped(k, j)
      ensures s.schedNext == old(s.schedNext)
    {
      assert Linked(k) && Linked(Succ(k, |queue|)) && Linked(Pred(k, |queue|));
      s.schedPrev.schedNext := s.schedNext;
      s.schedNext.schedPrev := s.schedPrev;
      forall j | 0 <= j < |queue| && j != k ensures Skipped(k, j) {
        assert old(Linked(j));
      }
    }

    /** Takes `s` out of the circle and moves the head off it. */
    method Detach(s: SchedStream, ghost k: nat)
      requires Valid() && k < |queue| && queue[k] == s
      modifies this`head, streams`schedNext, streams`schedPrev
      ensures forall j :: 0 <= j < |queue| && j != k ==> Skipped(k, j)
      ensures head == if |queue| == 1 then null else Without(queue, k)[0]
    {
      assert Linked(k);
      if s.schedNext == s {
        head := null;
      } else {
        Bypass(s, k);
        if head == s {
          head := s.schedNext;
        }
      }
    }

    method Unlink(s: SchedStream, ghost k: nat)
      requires Valid() && s in streams && k < |queue| && queue[k] == s
      modifies this`head, this`queue, streams`schedNext, streams`schedPrev, s`scheduled
      ensures Valid() && queue == Without(old(queue), k)
    {
      hide Distinct, Without, Succ, Pred;
      ghost var q := queue;
      WithoutMembers(q, k);
      Detach(s, k);
      assert forall j :: 0 <= j < |q| && j != k ==> Skipped(k, j);
      label Detached:
      s.schedNext, s.schedPrev, s.scheduled := null, null, false;
      queue := Without(q, k);
      forall i | 0 <= i < |queue| ensures Linked(i) {
        WithoutNeighbours(q, k, i);
        assert queue[i] in queue && queue[i] != s;
        assert old@Detached(Skipped(k, if i < k then i else i + 1));
      }
      forall i | 0 <= i < |queue| ensures queue[i] in streams {
        assert queue[i] in queue;
      }
    }

    /** Advances the head: the front stream becomes the last. */
    method Rotate()
      requires Valid() && head != null
      modifies this`head, this`queue
      ensures Valid() && queue == old(queue)[1..] + [old(queue)[0]]
    {
      hide Distinct, Without, Succ, Pred;
      ghost var q := queue;
      Rotated(q);
      assert Linked(0);
      RotatedAt(q, 0);
      RotatedAt(q, |q| - 1);
      head := head.schedNext;
      queue := q[1..] + [q[0]];
      forall i | 0 <= i < |queue| ensures Linked(i) {
        RotatedAt(q, i);
        assert old(Linked(Succ(i, |q|)));
      }
      forall i | 0 <= i < |queue| ensures queue[i] in streams {
        assert queue[i] in q;
      }
    }

    /**
     * `nxp_sched_next`: serves the front of the queue.  A stream with work left goes to the back; one with
     * none leaves.
     */
    method Next() returns (s: SchedStream?)
      requires Valid()
      modifies this`head, this`queue, streams`schedNext, streams`schedPrev, streams`scheduled
      ensures Valid()
      ensures old(queue) == [] ==> s == null && queue == []
      ensures old(queue) != [] ==> s == old(queue)[0] && s in streams
      ensures old(queue) != [] ==> queue == old(queue)[1..] + if HasWork(s.stream) then [s] else []
    {
      if head == null {
        return null;
      }
      hide Distinct, Without, Linked;
      s := head;
      ghost var q := queue;
      Rotated(q);
      Rotate();
      if Unsent(s.stream) == 0 && !(s.stream.send.fin && !s.stream.send.finSent) {
        ghost var r := queue;
        ghost var k := Remove(s);
        DistinctAt(r, k, |q| - 1);
        assert queue == q[1..] + [];
      }
    }
  }
}
