/**
  Up to four INT4 projections of the same activations in one launch (src/ops/linear.cpp:350-477): the sub-groups of all
  projections lie side by side, and each finds its projection from the offsets.
 */
module FusedGemv {
  import opened Bytes
  import opened Int4
  import opened Gemv
  import opened Arithmetic

  /** A projection with the buffer it writes to. */
  datatype Desc = Desc(p: Projection, y: array<real>)

  /** Sub-groups before projection `q` within one activation row. */
  function Offset(descs: seq<Desc>, q: nat): nat
    requires q <= |descs|
  {
    if q == 0 then 0 else Offset(descs, q - 1) + PerRow(descs[q - 1].p.n, 2)
  }

  lemma {:induction false} OffsetsGrow(descs: seq<Desc>, a: nat, b: nat)
    requires a <= b <= |descs|
    ensures Offset(descs, a) <= Offset(descs, b)
    decreases b
  {
    if a < b { OffsetsGrow(descs, a, b - 1); }
  }

  ghost predicate AreOffsets(offsets: seq<nat>, descs: seq<Desc>, n: nat)
    requires n <= |offsets| && n <= |descs|
  {
    forall q {:trigger offsets[q]} :: 0 <= q < n ==> offsets[q] == Offset(descs, q)
  }

  method Offsets(descs: seq<Desc>) returns (offsets: seq<nat>, total: nat)
    ensures |offsets| == |descs| && AreOffsets(offsets, descs, |descs|)
    ensures total == Offset(descs, |descs|)
  {
    offsets, total := [], 0;
    for i := 0 to |descs|
      invariant |offsets| == i && AreOffsets(offsets, descs, i)
      invariant total == Offset(descs, i)
    {
      offsets := offsets + [total];
      var sgs := PerRow(descs[i].p.n, 2);
      total := total + sgs;
    }
  }

  /** The projection a sub-group works for is the one whose stretch it lies in, also when some stretches are empty. */
  method Select(descs: seq<Desc>, offsets: seq<nat>, sg: nat) returns (q: nat)
    requires 1 <= |descs| <= 4 && |offsets| == |descs| && sg < Offset(descs, |descs|)
    requires AreOffsets(offsets, descs, |descs|)
    ensures q < |descs| && Offset(descs, q) <= sg < Offset(descs, q + 1)
  {
    q := 0;
    if |descs| > 1 && sg >= offsets[1] { q := 1; }
    if |descs| > 2 && sg >= offsets[2] { q := 2; }
    if |descs| > 3 && sg >= offsets[3] { q := 3; }
    forall r | 0 <= r <= |descs|
      ensures r <= q + 1 ==> Offset(descs, r) <= Offset(descs, q + 1)
      ensures r > q + 1 ==> Offset(descs, q + 1) <= Offset(descs, r)
    {
      if r <= q + 1 { OffsetsGrow(descs, r, q + 1); } else { OffsetsGrow(descs, q + 1, r); }
    }
    assert q == 0 ==> Offset(descs, 0) == 0;
  }

  // ---------------------------------------------------------------- local and global sub-groups

  /** Sub-group `local` of projection `q` in activation row `i`, among all sub-groups. */
  function Global(descs: seq<Desc>, q: nat, i: nat, local: nat): nat
    requires q < |descs|
  {
    i * Offset(descs, |descs|) + (Offset(descs, q) + local)
  }

  function Local(descs: seq<Desc>, q: nat, i: nat, local: nat): nat
    requires q < |descs|
  {
    i * PerRow(descs[q].p.n, 2) + local
  }

  /** Two different sub-groups are different in both numberings. */
  lemma SameSubGroup(descs: seq<Desc>, q: nat, i: nat, local: nat, q': nat, i': nat, local': nat)
    requires q < |descs| && local < PerRow(descs[q].p.n, 2) && q' < |descs| && local' < PerRow(descs[q'].p.n, 2)
    ensures Global(descs, q, i, local) == Global(descs, q', i', local') <==> q == q' && i == i' && local == local'
    ensures q == q' ==> (Local(descs, q, i, local) == Local(descs, q', i', local') <==> i == i' && local == local')
    ensures Offset(descs, q) + local < Offset(descs, |descs|)
  {
    var total := Offset(descs, |descs|);
    OffsetsGrow(descs, q + 1, |descs|);
    OffsetsGrow(descs, q' + 1, |descs|);
    DivMod(i, Offset(descs, q) + local, total);
    DivMod(i', Offset(descs, q') + local', total);
    if q < q' { OffsetsGrow(descs, q + 1, q'); }
    if q' < q { OffsetsGrow(descs, q' + 1, q); }
    if q == q' {
      DivMod(i, local, PerRow(descs[q].p.n, 2));
      DivMod(i', local', PerRow(descs[q].p.n, 2));
    }
  }

  /** A projection's own sub-groups that are done are those done in the launch. */
  ghost predicate Linked(descs: seq<Desc>, m: nat, q: nat, own: set<nat>, done: set<nat>)
    requires q < |descs|
  {
    forall i, local :: 0 <= i < m && 0 <= local < PerRow(descs[q].p.n, 2) ==>
      (Local(descs, q, i, local) in own <==> Global(descs, q, i, local) in done)
  }

  lemma LinkOne(descs: seq<Desc>, m: nat, q: nat, i: nat, local: nat, r: nat, own: set<nat>, done: set<nat>)
    requires q < |descs| && i < m && local < PerRow(descs[q].p.n, 2) && r < |descs| && Linked(descs, m, r, own, done)
    ensures Linked(descs, m, r, if r == q then own + {Local(descs, q, i, local)} else own,
                   done + {Global(descs, q, i, local)})
  {
    forall i', local' | 0 <= i' < m && 0 <= local' < PerRow(descs[r].p.n, 2)
      ensures Global(descs, r, i', local') == Global(descs, q, i, local) <==> r == q && i' == i && local' == local
      ensures r == q ==> (Local(descs, r, i', local') == Local(descs, q, i, local) <==> i' == i && local' == local)
    {
      SameSubGroup(descs, r, i', local', q, i, local);
    }
  }

  lemma LinkedDone(descs: seq<Desc>, m: nat, q: nat, own: set<nat>, done: set<nat>)
    requires q < |descs| && Linked(descs, m, q, own, done)
    requires forall id: nat :: id < m * Offset(descs, |descs|) ==> id in done
    ensures forall id: nat :: id < m * PerRow(descs[q].p.n, 2) ==> id in own
  {
    forall id: nat | id < m * PerRow(descs[q].p.n, 2)
      ensures id in own
    {
      var (i, local) := RowAndColumn(id, m, PerRow(descs[q].p.n, 2));
      SameSubGroup(descs, q, i, local, q, i, local);
      CellBound(i, Offset(descs, q) + local, m, Offset(descs, |descs|));
      assert Local(descs, q, i, local) == id;
    }
  }

  // ---------------------------------------------------------------- the launch

  /** What one projection has had done to its buffer. */
  datatype Ledger = Ledger(writes: multiset<nat>, cells: set<nat>, own: set<nat>)

  ghost predicate DescShaped(d: Desc, x: seq<real>, m: nat, k: nat) {
    Shaped(x, d.p, m, k) && m * d.p.n <= d.y.Length
  }

  ghost predicate Distinct(descs: seq<Desc>) {
    forall a, b :: 0 <= a < b < |descs| ==> descs[a].y != descs[b].y
  }

  ghost predicate InProgress(p: Projection, y: seq<real>, x: seq<real>, m: nat, k: nat, l: Ledger) {
    && Shaped(x, p, m, k) && m * p.n <= |y|
    && if p.n == 0 then l.writes == multiset{}
       else Progress(y, l.writes, l.cells, l.own, Expected(x, p, m, k, m * p.n), p.n, 2)
  }

  ghost predicate Finished(p: Projection, y: seq<real>, x: seq<real>, m: nat, k: nat, writes: multiset<nat>) {
    Shaped(x, p, m, k) && Complete(y, writes, Expected(x, p, m, k, m * p.n))
  }

  lemma NotStarted(d: Desc, y: seq<real>, x: seq<real>, m: nat, k: nat)
    requires Shaped(x, d.p, m, k) && m * d.p.n <= |y|
    ensures InProgress(d.p, y, x, m, k, Ledger(multiset{}, {}, {}))
  {
    if d.p.n > 0 { NothingDone(y, Expected(x, d.p, m, k, m * d.p.n), d.p.n, 2); }
  }

  lemma Finish(p: Projection, y: seq<real>, x: seq<real>, m: nat, k: nat, l: Ledger)
    requires InProgress(p, y, x, m, k, l)
    requires forall id: nat :: id < m * PerRow(p.n, 2) ==> id in l.own
    ensures Finished(p, y, x, m, k, l.writes)
  {
    if p.n > 0 { AllDone(y, l.writes, l.cells, Expected(x, p, m, k, m * p.n), m, p.n, 2, l.own); }
  }

  /** One sub-group of the fused launch. */
  method RunFused(d: Desc, x: seq<real>, m: nat, k: nat, i: nat, local: nat, ghost l: Ledger, ghost id: nat)
    returns (ghost after: Ledger)
    requires DescShaped(d, x, m, k) && i < m && local < PerRow(d.p.n, 2)
    requires id == i * PerRow(d.p.n, 2) + local && id !in l.own && InProgress(d.p, d.y[..], x, m, k, l)
    modifies d.y
    ensures InProgress(d.p, d.y[..], x, m, k, after) && after.own == l.own + {id}
  {
    ghost var writes, cells :=
      RunPair(d.y, x, d.p, m, k, 1, i, local, id, l.writes, l.cells, l.own, Expected(x, d.p, m, k, m * d.p.n), m * d.p.n);
    after := Ledger(writes, cells, l.own + {id});
  }

  ghost function Started(descs: seq<Desc>): (r: seq<Ledger>)
    ensures |r| == |descs| && forall q :: 0 <= q < |r| ==> r[q] == Ledger(multiset{}, {}, {})
  {
    seq(|descs|, _ => Ledger(multiset{}, {}, {}))
  }

  ghost predicate AllLinked(descs: seq<Desc>, m: nat, ledgers: seq<Ledger>, done: set<nat>) {
    |ledgers| == |descs| && forall q :: 0 <= q < |descs| ==> Linked(descs, m, q, ledgers[q].own, done)
  }

  lemma LinkAll(descs: seq<Desc>, m: nat, q: nat, i: nat, local: nat, before: seq<Ledger>, after: seq<Ledger>, done: set<nat>)
    requires q < |descs| && i < m && local < PerRow(descs[q].p.n, 2) && AllLinked(descs, m, before, done)
    requires |after| == |before| && after[q].own == before[q].own + {Local(descs, q, i, local)}
    requires forall r :: 0 <= r < |after| && r != q ==> after[r] == before[r]
    ensures AllLinked(descs, m, after, done + {Global(descs, q, i, local)})
  {
    forall r | 0 <= r < |descs|
      ensures Linked(descs, m, r, after[r].own, done + {Global(descs, q, i, local)})
    {
      LinkOne(descs, m, q, i, local, r, before[r].own, done);
    }
  }

  ghost predicate AllInProgress(descs: seq<Desc>, x: seq<real>, m: nat, k: nat, ledgers: seq<Ledger>)
    reads set d | d in descs :: d.y
  {
    |ledgers| == |descs| && forall q :: 0 <= q < |descs| ==> InProgress(descs[q].p, descs[q].y[..], x, m, k, ledgers[q])
  }

  method FusedStep(descs: seq<Desc>, offsets: seq<nat>, total: nat, x: seq<real>, m: nat, k: nat, id: nat,
                   ghost before: seq<Ledger>, ghost done: set<nat>)
    returns (ghost ledgers: seq<Ledger>)
    requires 1 <= |descs| <= 4 && Distinct(descs) && |offsets| == |descs| && AreOffsets(offsets, descs, |descs|)
    requires total == Offset(descs, |descs|) && id < m * total && id !in done
    requires AllInProgress(descs, x, m, k, before) && AllLinked(descs, m, before, done)
    modifies set d | d in descs :: d.y
    ensures AllInProgress(descs, x, m, k, ledgers) && AllLinked(descs, m, ledgers, done + {id})
  {
    var (i, sg) := RowAndColumn(id, m, total);
    var q := Select(descs, offsets, sg);
    var local := sg - offsets[q];
    assert Global(descs, q, i, local) == id;
    ghost var own := Local(descs, q, i, local);
    assert own !in before[q].own;
    assert InProgress(descs[q].p, descs[q].y[..], x, m, k, before[q]);
    ghost var l := RunFused(descs[q], x, m, k, i, local, before[q], own);
    ledgers := before[q := l];
    LinkAll(descs, m, q, i, local, before, ledgers, done);
  }

  /** A scheduled sub-group, or padding, which does nothing. */
  method FusedScheduled(descs: seq<Desc>, offsets: seq<nat>, total: nat, x: seq<real>, m: nat, k: nat, all: nat, id: nat,
                        ghost before: seq<Ledger>, ghost done: set<nat>)
    returns (ghost ledgers: seq<Ledger>)
    requires 1 <= |descs| <= 4 && Distinct(descs) && |offsets| == |descs| && AreOffsets(offsets, descs, |descs|)
    requires total == Offset(descs, |descs|) && all == m * total && (id < all ==> id !in done)
    requires AllInProgress(descs, x, m, k, before) && AllLinked(descs, m, before, done)
    modifies set d | d in descs :: d.y
    ensures AllInProgress(descs, x, m, k, ledgers)
    ensures AllLinked(descs, m, ledgers, if id < all then done + {id} else done)
  {
    ledgers := before;
    if id < all {
      ledgers := FusedStep(descs, offsets, total, x, m, k, id, before, done);
    }
  }

  lemma StartAll(descs: seq<Desc>, x: seq<real>, m: nat, k: nat)
    requires forall q :: 0 <= q < |descs| ==> DescShaped(descs[q], x, m, k)
    ensures AllInProgress(descs, x, m, k, Started(descs)) && AllLinked(descs, m, Started(descs), {})
  {
    forall q | 0 <= q < |descs|
      ensures InProgress(descs[q].p, descs[q].y[..], x, m, k, Started(descs)[q])
    {
      assert DescShaped(descs[q], x, m, k);
      NotStarted(descs[q], descs[q].y[..], x, m, k);
    }
  }

  lemma FinishAll(descs: seq<Desc>, x: seq<real>, m: nat, k: nat, all: nat, ledgers: seq<Ledger>, done: set<nat>)
    requires AllInProgress(descs, x, m, k, ledgers) && AllLinked(descs, m, ledgers, done)
    requires all == m * Offset(descs, |descs|) && forall id: nat :: id < all ==> id in done
    ensures forall q :: 0 <= q < |descs| ==> Finished(descs[q].p, descs[q].y[..], x, m, k, ledgers[q].writes)
  {
    forall q | 0 <= q < |descs|
      ensures Finished(descs[q].p, descs[q].y[..], x, m, k, ledgers[q].writes)
    {
      LinkedDone(descs, m, q, ledgers[q].own, done);
      Finish(descs[q].p, descs[q].y[..], x, m, k, ledgers[q]);
    }
  }

  /** All sub-groups, in any order. */
  method FusedLoop(descs: seq<Desc>, offsets: seq<nat>, total: nat, x: seq<real>, m: nat, k: nat, all: nat, order: seq<nat>,
                   ghost start: seq<Ledger>)
    returns (ghost ledgers: seq<Ledger>, ghost done: set<nat>)
    requires 1 <= |descs| <= 4 && Distinct(descs) && |offsets| == |descs| && AreOffsets(offsets, descs, |descs|)
    requires total == Offset(descs, |descs|) && all == m * total && Schedule(order, all)
    requires AllInProgress(descs, x, m, k, start) && AllLinked(descs, m, start, {})
    modifies set d | d in descs :: d.y
    ensures AllInProgress(descs, x, m, k, ledgers) && AllLinked(descs, m, ledgers, done)
    ensures Ran(order, |order|, all, done)
  {
    ledgers, done := start, {};
    for t := 0 to |order|
      invariant AllInProgress(descs, x, m, k, ledgers) && AllLinked(descs, m, ledgers, done)
      invariant Ran(order, t, all, done)
    {
      RanOne(order, t, all, done);
      ledgers := FusedScheduled(descs, offsets, total, x, m, k, all, order[t], ledgers, done);
      done := if order[t] < all then done + {order[t]} else done;
    }
  }

  method FusedLaunch(descs: seq<Desc>, x: seq<real>, m: nat, k: nat, ghost all: nat, order: seq<nat>)
    returns (ghost ledgers: seq<Ledger>)
    requires 1 <= |descs| <= 4 && Distinct(descs)
    requires forall q :: 0 <= q < |descs| ==> DescShaped(descs[q], x, m, k)
    requires all == m * Offset(descs, |descs|) && Schedule(order, all)
    modifies set d | d in descs :: d.y
    ensures |ledgers| == |descs|
    ensures forall q :: 0 <= q < |descs| ==> Finished(descs[q].p, descs[q].y[..], x, m, k, ledgers[q].writes)
  {
    var offsets, total := Offsets(descs);
    StartAll(descs, x, m, k);
    ghost var done;
    ledgers, done := FusedLoop(descs, offsets, total, x, m, k, m * total, order, Started(descs));
    RanAll(order, all, done);
    FinishAll(descs, x, m, k, all, ledgers, done);
  }

  predicate Runs(descs: seq<Desc>, m: nat, k: nat) {
    1 <= |descs| <= 4 && m > 0 && k > 0
  }

  /** `linear_int4_fused_impl`: every projection ends up complete, whatever the order of the sub-groups. */
  method LinearInt4Fused(descs: seq<Desc>, x: seq<real>, m: nat, k: nat, order: seq<nat>) returns (ghost ledgers: seq<Ledger>)
    requires Runs(descs, m, k) ==>
      && Distinct(descs) && Schedule(order, m * Offset(descs, |descs|))
      && forall q :: 0 <= q < |descs| ==> DescShaped(descs[q], x, m, k)
    modifies set d | d in descs :: d.y
    ensures |ledgers| == |descs|
    ensures Runs(descs, m, k) ==>
      forall q :: 0 <= q < |descs| ==> Finished(descs[q].p, descs[q].y[..], x, m, k, ledgers[q].writes)
    ensures !Runs(descs, m, k) ==>
      forall q :: 0 <= q < |descs| ==> descs[q].y[..] == old(descs[q].y[..]) && ledgers[q].writes == multiset{}
  {
    if !Runs(descs, m, k) {
      ledgers := Started(descs);
      return;
    }
    ledgers := FusedLaunch(descs, x, m, k, m * Offset(descs, |descs|), order);
  }
}
