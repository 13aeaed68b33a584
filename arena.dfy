/**
 * The segmented arena of parse/src/arena.rs, single-threaded.
 *
 * Values live in fixed-size segments of `N` slots. `current` is the segment
 * being filled, `next` is the next free slot index in it, and `rest` holds the
 * retired (full) segments, oldest first. An `Id` names a value by segment and
 * slot. The atomics of the source are plain fields here and the
 * `fetch_update` closure runs once.
 */
module Arena {

  /**
   * A handle: segment index and slot index. The type parameter is the
   * source's `PhantomData<T>`: ids of arenas of different element types are
   * different types.
   */
  datatype Id<T> = Id(seg: nat, idx: nat)

  /** `Id::default()`. */
  function Default<T>(): (id: Id<T>)
    ensures id.seg == 0 && id.idx == 0
  {
    Id(0, 0)
  }

  /** `Id::clone()` (and the `Copy` it enables): a field-by-field copy. */
  function Clone<T>(id: Id<T>): (c: Id<T>)
    ensures c.seg == id.seg && c.idx == id.idx
    ensures c == id
  {
    Id(id.seg, id.idx)
  }

  datatype Ordering = Less | Equal | Greater

  /** The derived `Ord::cmp`: segment first, then slot (the phantom field is always equal). */
  function Cmp<T>(a: Id<T>, b: Id<T>): (r: Ordering)
    ensures r == Equal <==> a.seg == b.seg && a.idx == b.idx
    ensures r == Less <==> a.seg < b.seg || (a.seg == b.seg && a.idx < b.idx)
  {
    if a.seg < b.seg then Less
    else if a.seg > b.seg then Greater
    else if a.idx < b.idx then Less
    else if a.idx > b.idx then Greater
    else Equal
  }

  /** The derived ordering agrees with the derived equality and is a total order. */
  lemma CmpIsTotalOrder<T>(a: Id<T>, b: Id<T>, c: Id<T>)
    ensures Cmp(a, b) == Equal <==> a == b
    ensures Cmp(a, b) == Less <==> Cmp(b, a) == Greater
    ensures Cmp(a, b) == Less && Cmp(b, c) == Less ==> Cmp(a, c) == Less
    ensures Cmp(a, b) == Less <==> (a.seg, a.idx) != (b.seg, b.idx) && (a.seg < b.seg || (a.seg == b.seg && a.idx < b.idx))
  {
  }

  /** The effect of claiming a slot: the slot written, the new counter, whether a segment was retired. */
  datatype ClaimStep = ClaimStep(slot: nat, next: nat, rotate: bool)

  /**
   * Slot claiming as written at parse/src/arena.rs:58-72: `fetch_add(1)`
   * stores `next + 1`, then `fetch_update` sees that value `v`, rotates when
   * `v > N` (storing 0) and otherwise stores `v + 1`; either way it hands back
   * `v` itself as the slot.
   */
  function AsWrittenClaim(next: nat, n: nat): (c: ClaimStep)
    ensures c.slot == next + 1
    ensures c.rotate <==> next + 1 > n
  {
    var v := next + 1;
    if v > n then ClaimStep(v, 0, true) else ClaimStep(v, v + 1, false)
  }

  /**
   * The as-written claim escapes the segment: from `next == N - 1` it hands out
   * slot `N` (one past the end) and leaves `next == N + 1`; from `next == N` it
   * rotates and still hands out `N + 1`. From a fresh segment it skips slot 0.
   */
  lemma AsWrittenClaimOutOfBounds(n: nat)
    requires n > 0
    ensures AsWrittenClaim(n - 1, n).slot == n && AsWrittenClaim(n - 1, n).next == n + 1
    ensures AsWrittenClaim(n, n).rotate && AsWrittenClaim(n, n).slot == n + 1
    ensures AsWrittenClaim(0, n).slot == 1
  {
  }

  /** The counter after `k` as-written claims from a fresh segment of size `n`. */
  function AsWrittenNextAfter(k: nat, n: nat): nat
  {
    if k == 0 then 0 else AsWrittenClaim(AsWrittenNextAfter(k - 1, n), n).next
  }

  /** With the cache's segment size 8, the fifth insert into a fresh arena writes slot 9. */
  lemma AsWrittenFifthInsertOfEight()
    ensures AsWrittenNextAfter(4, 8) == 8
    ensures AsWrittenClaim(AsWrittenNextAfter(4, 8), 8) == ClaimStep(9, 0, true)
  {
  }

  /**
   * Corrected slot claiming: claim `next`; when the segment is full, rotate
   * first and claim slot 0 of the fresh segment.
   */
  function Claim(next: nat, n: nat): (c: ClaimStep)
    requires 0 < n && next <= n
    ensures c.slot < n && c.next == c.slot + 1 <= n
    ensures c.rotate <==> next == n
    ensures c.rotate ==> c.slot == 0
    ensures !c.rotate ==> c.slot == next
  {
    if next >= n then ClaimStep(0, 1, true) else ClaimStep(next, next + 1, false)
  }

  /** Position of the value at `id` in insertion order, for segments of size `n`. */
  function OrdinalOf<T>(id: Id<T>, n: nat): nat
  {
    id.seg * n + id.idx
  }

  /** `a * n <= b * n` for `a <= b`. */
  lemma MulMonotone(a: nat, b: nat, n: nat)
    requires a <= b
    ensures a * n <= b * n
  {
  }

  /** An issued slot's ordinal is below the number of values inserted. */
  lemma OrdinalBelow(seg: nat, idx: nat, segs: nat, next: nat, n: nat)
    requires next <= n
    requires (seg < segs && idx < n) || (seg == segs && idx < next)
    ensures seg * n + idx < segs * n + next
  {
    if seg < segs {
      MulMonotone(seg + 1, segs, n);
    }
  }

  /** A slot is issued exactly when it lies inside a segment and its ordinal is below the count of values. */
  lemma IssuedSlot(seg: nat, idx: nat, segs: nat, next: nat, n: nat)
    requires next <= n
    ensures (seg < segs && idx < n) || (seg == segs && idx < next) <==> idx < n && seg * n + idx < segs * n + next
  {
    if (seg < segs && idx < n) || (seg == segs && idx < next) {
      OrdinalBelow(seg, idx, segs, next, n);
    } else if seg > segs {
      MulMonotone(segs + 1, seg, n);
      assert (segs + 1) * n == segs * n + n;
    }
  }

  /** The values of full segments, oldest first. */
  ghost function Retired<T>(segs: seq<array<T>>): seq<T>
    reads segs
  {
    if segs == [] then [] else Retired(segs[..|segs| - 1]) + segs[|segs| - 1][..]
  }

  /** Full segments of size `n` hold `n` values each, and slot `idx` of segment `seg` is value `seg * n + idx`. */
  lemma {:induction false} RetiredAt<T>(segs: seq<array<T>>, n: nat, seg: nat, idx: nat)
    requires forall k :: 0 <= k < |segs| ==> segs[k].Length == n
    requires seg < |segs| && idx < n
    ensures |Retired(segs)| == |segs| * n
    ensures seg * n + idx < |segs| * n
    ensures Retired(segs)[seg * n + idx] == segs[seg][idx]
    decreases |segs|
  {
    var init := segs[..|segs| - 1];
    RetiredLength(init, n);
    if seg < |segs| - 1 {
      RetiredAt(init, n, seg, idx);
    } else {
      assert seg * n == |init| * n;
    }
  }

  /** Full segments of size `n` hold `n` values each. */
  lemma {:induction false} RetiredLength<T>(segs: seq<array<T>>, n: nat)
    requires forall k :: 0 <= k < |segs| ==> segs[k].Length == n
    ensures |Retired(segs)| == |segs| * n
    decreases |segs|
  {
    if segs != [] {
      RetiredLength(segs[..|segs| - 1], n);
    }
  }

  class Arena<T(0)> {
    /** Segment size, the source's const generic `N`. */
    const N: nat
    /** Next free slot index in the current segment. */
    var next: nat
    /** The segment being filled. */
    var current: array<T>
    /** Retired segments, oldest first. */
    var rest: seq<array<T>>

    ghost predicate Valid()
      reads this
    {
      && 0 < N
      && current.Length == N
      && next <= N
      && forall k :: 0 <= k < |rest| ==> rest[k].Length == N && rest[k] != current
    }

    /** The ids this arena has handed out: every slot of a retired segment, the claimed slots of the current one. */
    ghost predicate Issued(id: Id<T>)
      reads this
    {
      (id.seg < |rest| && id.idx < N) || (id.seg == |rest| && id.idx < next)
    }

    /** Position of an id's value in insertion order. */
    function Ordinal(id: Id<T>): nat
    {
      OrdinalOf(id, N)
    }

    /** Every inserted value, in insertion order. */
    ghost function Contents(): (s: seq<T>)
      requires Valid()
      reads this, current, rest
    {
      Retired(rest) + current[..next]
    }

    /** There are `N` values per retired segment and `next` in the current one. */
    lemma ContentsLength()
      requires Valid()
      ensures |Contents()| == |rest| * N + next
    {
      RetiredLength(rest, N);
    }

    /** An id is issued exactly when its slot is inside a segment and its ordinal is below the number of values. */
    lemma {:induction false} IssuedIff(id: Id<T>)
      requires Valid()
      ensures Issued(id) <==> id.idx < N && Ordinal(id) < |Contents()|
    {
      ContentsLength();
      IssuedSlot(id.seg, id.idx, |rest|, next, N);
    }

    /** `Arena::new()`: one fresh, empty segment. */
    constructor (n: nat)
      requires n > 0
      ensures Valid() && N == n && fresh(current)
      ensures rest == [] && next == 0 && Contents() == []
    {
      N := n;
      next := 0;
      current := new T[n];
      rest := [];
    }

    /**
     * `Arena::get`: segment `id.seg` is the current one when it equals the
     * number of retired segments and a retired one otherwise; the value is
     * the `Ordinal(id)`-th value inserted.
     */
    function Get(id: Id<T>): (v: T)
      requires Valid() && Issued(id)
      reads this, current, rest
      ensures Ordinal(id) < |Contents()|
      ensures v == Contents()[Ordinal(id)]
    {
      RetiredLength(rest, N);
      if id.seg == |rest| then
        MulMonotone(id.seg, |rest|, N);
        current[id.idx]
      else
        RetiredAt(rest, N, id.seg, id.idx);
        rest[id.seg][id.idx]
    }

    /**
     * Segment rotation (parse/src/arena.rs:62-65): the full current segment is
     * appended to the retired ones, a fresh segment is installed and the
     * counter restarts at 0; the contents do not change.
     */
    method Rotate()
      requires Valid() && next == N
      modifies this
      ensures Valid()
      ensures rest == old(rest) + [old(current)] && fresh(current) && next == 0
      ensures Contents() == old(Contents())
    {
      ghost var before := Contents();
      rest := rest + [current];
      current := new T[N];
      next := 0;
      assert Retired(rest) == before;
    }

    /**
     * `Arena::insert` with the slot claim corrected (see `Claim`): the value is
     * appended to the contents, the returned id is stamped with the segment
     * count after a possible rotation and the claimed slot, it was not issued
     * before, and every earlier id still reads its own value.
     */
    method Insert(value: T) returns (id: Id<T>)
      requires Valid()
      modifies this, current
      ensures Valid()
      ensures Contents() == old(Contents()) + [value]
      ensures id.seg == |rest| && id.idx == next - 1
      ensures Issued(id) && !old(Issued(id))
      ensures Ordinal(id) == |old(Contents())| && Get(id) == value
      ensures forall seg: nat, idx: nat :: old(Issued(Id(seg, idx))) ==>
                Issued(Id(seg, idx)) && Get(Id(seg, idx)) == old(Get(Id(seg, idx)))
      ensures rest == if old(next) == N then old(rest) + [old(current)] else old(rest)
      ensures next == if old(next) == N then 1 else old(next) + 1
      ensures if old(next) == N then fresh(current) else current == old(current)
    {
      var c := Claim(next, N);
      if c.rotate {
        Rotate();
      }
      id := Place(value);
      ContentsLength();
      forall seg: nat, idx: nat | old(Issued(Id(seg, idx)))
        ensures Issued(Id(seg, idx)) && Get(Id(seg, idx)) == old(Get(Id(seg, idx)))
      {
        OrdinalBelow(seg, idx, old(|rest|), old(next), N);
      }
    }

    /** Writing `value` into the free slot `next` of the current segment appends it to the contents. */
    method Place(value: T) returns (id: Id<T>)
      requires Valid() && next < N
      modifies this, current
      ensures Valid()
      ensures rest == old(rest) && current == old(current) && next == old(next) + 1
      ensures id == Id(|rest|, old(next))
      ensures Contents() == old(Contents()) + [value]
    {
      ghost var before := Contents();
      var slot := next;
      assert Retired(rest) + current[..slot] == before;
      current[slot] := value;
      next := slot + 1;
      id := Id(|rest|, slot);
      assert Contents() == before + [value] by {
        assert current[..next] == current[..slot] + [value];
      }
    }
  }

  /** Inserting `0, 1, ..., n - 1` into an empty arena hands out ids that read back exactly those values. */
  method InsertRange(a: Arena<int>, n: nat) returns (ids: seq<Id<int>>)
    requires a.Valid() && a.Contents() == []
    modifies a, a.current
    ensures a.Valid()
    ensures |a.Contents()| == n && |ids| == n
    ensures forall k :: 0 <= k < n ==> a.Issued(ids[k]) && a.Get(ids[k]) == k
  {
    ids := [];
    var v := 0;
    while v < n
      invariant 0 <= v <= n
      invariant a.Valid()
      invariant |a.Contents()| == v && |ids| == v
      invariant forall k :: 0 <= k < v ==> a.Issued(ids[k]) && a.Get(ids[k]) == k
      invariant a.current == old(a.current) || fresh(a.current)
    {
      var id := a.Insert(v);
      ids := ids + [id];
      v := v + 1;
    }
  }

  /**
   * Capacity rollover: `2 * N + 3` inserts into an arena with `N == 4` span
   * three segments and every returned id reads back the value inserted with it.
   */
  method RolloverScenario() returns (got: seq<int>, segments: nat)
    ensures got == [0, 1, 2, 3, 4, 5, 6, 7, 8, 9, 10]
    ensures segments == 3
  {
    var a := new Arena<int>(4);
    var ids := InsertRange(a, 11);
    got := [];
    var k := 0;
    while k < 11
      invariant 0 <= k <= 11
      invariant got == seq(k, j requires 0 <= j < k => j)
    {
      got := got + [a.Get(ids[k])];
      k := k + 1;
    }
    segments := |a.rest| + 1;
    a.ContentsLength();
    assert |a.rest| * 4 + a.next == 11;
  }
}
