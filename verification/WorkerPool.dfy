/**
 The shared-index worker loop used by the drain sweep and by server discovery:
 a few workers run `while (next < size) { take next++; ...await...; }` over one
 list. A slot is what one worker holds between two of its awaits.
 */
module WorkerPool {
  import opened Common

  datatype Slot<+S> = Free | Holding(index: nat, stage: S) | Retired

  datatype Pool<+S> = Pool(size: nat, next: nat, slots: seq<Slot<S>>, done: set<nat>)

  const MAX_WORKERS: nat := 4

  function Fresh<S>(size: nat): Pool<S> {
    Pool(size, 0, seq(if size < MAX_WORKERS then size else MAX_WORKERS, _ => Free), {})
  }

  /** One worker reaches its loop test: it takes the next index, or returns. */
  function Take<S>(p: Pool<S>, w: nat, stage: S): Pool<S>
    requires w < |p.slots|
  {
    if p.next < p.size
    then p.(next := p.next + 1, slots := p.slots[w := Holding(p.next, stage)])
    else p.(slots := p.slots[w := Retired])
  }

  function Advance<S>(p: Pool<S>, w: nat, stage: S): Pool<S>
    requires w < |p.slots| && p.slots[w].Holding?
  {
    p.(slots := p.slots[w := Holding(p.slots[w].index, stage)])
  }

  function Release<S>(p: Pool<S>, w: nat): Pool<S>
    requires w < |p.slots| && p.slots[w].Holding?
  {
    p.(slots := p.slots[w := Free], done := p.done + {p.slots[w].index})
  }

  ghost predicate Held<S>(p: Pool<S>, k: nat) {
    exists w :: 0 <= w < |p.slots| && p.slots[w].Holding? && p.slots[w].index == k
  }

  ghost predicate Valid<S>(p: Pool<S>) {
    && p.next <= p.size
    && |p.slots| == (if p.size < 4 then p.size else 4)
    && (forall k :: k in p.done ==> k < p.next)
    && (forall w :: 0 <= w < |p.slots| && p.slots[w].Holding? ==>
          p.slots[w].index < p.next && p.slots[w].index !in p.done)
    && (forall w :: 0 <= w < |p.slots| && p.slots[w].Retired? ==> p.next == p.size)
    && (forall v, w :: 0 <= v < w < |p.slots| && p.slots[v].Holding? && p.slots[w].Holding? ==>
          p.slots[v].index != p.slots[w].index)
    && (forall k: nat :: k < p.next && k !in p.done ==> Held(p, k))
  }

  lemma FreshValid<S>(size: nat)
    ensures Valid<S>(Fresh(size))
  {
  }

  lemma TakeValid<S>(p: Pool<S>, w: nat, stage: S)
    requires Valid(p) && w < |p.slots| && p.slots[w].Free?
    ensures Valid(Take(p, w, stage))
  {
    var q := Take(p, w, stage);
    forall k: nat | k < q.next && k !in q.done
      ensures Held(q, k)
    {
      if k < p.next {
        var v :| 0 <= v < |p.slots| && p.slots[v].Holding? && p.slots[v].index == k;
        assert q.slots[v] == p.slots[v];
      } else {
        assert q.slots[w].Holding? && q.slots[w].index == k;
      }
    }
  }

  lemma AdvanceValid<S>(p: Pool<S>, w: nat, stage: S)
    requires Valid(p) && w < |p.slots| && p.slots[w].Holding?
    ensures Valid(Advance(p, w, stage))
  {
    var q := Advance(p, w, stage);
    forall k: nat | k < q.next && k !in q.done
      ensures Held(q, k)
    {
      var v :| 0 <= v < |p.slots| && p.slots[v].Holding? && p.slots[v].index == k;
      assert q.slots[v].Holding? && q.slots[v].index == k;
    }
  }

  lemma ReleaseValid<S>(p: Pool<S>, w: nat)
    requires Valid(p) && w < |p.slots| && p.slots[w].Holding?
    ensures Valid(Release(p, w))
    ensures p.slots[w].index !in p.done
  {
    var q := Release(p, w);
    forall k: nat | k < q.next && k !in q.done
      ensures Held(q, k)
    {
      var v :| 0 <= v < |p.slots| && p.slots[v].Holding? && p.slots[v].index == k;
      assert q.slots[v] == p.slots[v];
    }
  }

  /** When every worker has returned, each index was taken and finished exactly once. */
  lemma AllRetiredIsComplete<S>(p: Pool<S>)
    requires Valid(p) && (forall w :: 0 <= w < |p.slots| ==> p.slots[w].Retired?)
    ensures forall k: nat :: k in p.done <==> k < p.size
  {
    if p.size > 0 {
      assert p.slots[0].Retired?;
    }
    forall k: nat | k < p.size
      ensures k in p.done
    {
      assert k in p.done || Held(p, k);
    }
  }
}
