/**
 The daemon's swap files (packages/server/src/swap.ts): a target is planned over the blocks
 that exist, and carried out one file operation at a time; a crash may cut it anywhere.
 */
module Swap {
  datatype Block = Block(index: nat, sizeGb: nat, active: bool)

  datatype Plan = Plan(activate: seq<nat>, remove: seq<nat>, createGb: nat, deferredGb: nat)

  function ActiveGb(blocks: seq<Block>): nat {
    if blocks == [] then 0 else (if blocks[0].active then blocks[0].sizeGb else 0) + ActiveGb(blocks[1..])
  }

  function Max(a: nat, b: nat): nat { if a >= b then a else b }

  function Gap(target: nat, blocks: seq<Block>): nat {
    if target >= ActiveGb(blocks) then target - ActiveGb(blocks) else 0
  }

  // ---------------------------------------------------------------- the plan

  predicate Fits(b: Block, remaining: nat) { b.sizeGb <= remaining && b.sizeGb > 0 }

  /** The gap filled from the inactive blocks in order; what does not fit goes. */
  function Fill(remaining: nat, blocks: seq<Block>): (p: Plan) {
    if blocks == [] then Plan([], [], remaining, 0)
    else
      var b := blocks[0];
      if b.active then Fill(remaining, blocks[1..])
      else if Fits(b, remaining) then
        var p := Fill(remaining - b.sizeGb, blocks[1..]);
        p.(activate := [b.index] + p.activate)
      else
        var p := Fill(remaining, blocks[1..]);
        p.(remove := [b.index] + p.remove)
  }

  function PlanOf(target: nat, blocks: seq<Block>): Plan {
    var active := ActiveGb(blocks);
    Fill(Gap(target, blocks), blocks).(deferredGb := if active >= target then active - target else 0)
  }

  ghost predicate Ascending(blocks: seq<Block>) {
    forall i, j :: 0 <= i < j < |blocks| ==> blocks[i].index < blocks[j].index
  }

  ghost predicate NoIndex(blocks: seq<Block>, i: nat) { forall b :: b in blocks ==> b.index != i }

  lemma AscendingTail(blocks: seq<Block>)
    requires Ascending(blocks) && blocks != []
    ensures Ascending(blocks[1..]) && NoIndex(blocks[1..], blocks[0].index)
    ensures forall b :: b in blocks[1..] ==> blocks[0].index < b.index
  {
    forall b | b in blocks[1..] ensures blocks[0].index < b.index {
      var j :| 0 <= j < |blocks[1..]| && blocks[1..][j] == b;
      assert blocks[0].index < blocks[j + 1].index;
    }
  }

  predicate Rising(ids: seq<nat>) { forall i, j :: 0 <= i < j < |ids| ==> ids[i] < ids[j] }

  lemma RisingCons(i: nat, ids: seq<nat>)
    requires Rising(ids) && forall j :: j in ids ==> i < j
    ensures Rising([i] + ids)
  {
    forall a, b | 0 <= a < b < |[i] + ids| ensures ([i] + ids)[a] < ([i] + ids)[b] {
      assert ([i] + ids)[b] == ids[b - 1] && ids[b - 1] in ids;
    }
  }

  /** The sizes of the blocks among these that `ids` names. */
  function NamedGb(blocks: seq<Block>, ids: seq<nat>): nat {
    if blocks == [] then 0
    else (if blocks[0].index in ids then blocks[0].sizeGb else 0) + NamedGb(blocks[1..], ids)
  }

  /** An inactive block's share of a plan: kept while it has a size and everything up to it fits the target. */
  predicate Placed(p: Plan, target: nat, blocks: seq<Block>, k: nat)
    requires k < |blocks|
  {
    var b := blocks[k];
    if b.active then b.index !in p.activate && b.index !in p.remove
    else
      && (b.index in p.activate <==>
            b.sizeGb > 0 && ActiveGb(blocks) + NamedGb(blocks[..k], p.activate) + b.sizeGb <= target)
      && (b.index in p.remove <==> b.index !in p.activate)
  }

  /**
   What a plan is, block by block in index order: an active block stays as it is; an
   inactive one is activated exactly when the active total, the blocks activated before it
   and its own size come to no more than the target, and is removed otherwise; the new block
   is what is then missing to the target, and the excess mounted is put off.
   */
  ghost predicate PlanIs(p: Plan, target: nat, blocks: seq<Block>) {
    && (forall k: nat :: k < |blocks| ==> Placed(p, target, blocks, k))
    && (forall i :: i in p.activate || i in p.remove ==> !NoIndex(blocks, i))
    && Rising(p.activate) && Rising(p.remove)
    && p.createGb == (if ActiveGb(blocks) >= target then 0 else target - ActiveGb(blocks) - NamedGb(blocks, p.activate))
    && p.deferredGb == (if ActiveGb(blocks) >= target then ActiveGb(blocks) - target else 0)
  }

  lemma {:induction false} FillNames(remaining: nat, blocks: seq<Block>, i: nat)
    requires NoIndex(blocks, i)
    ensures i !in Fill(remaining, blocks).activate && i !in Fill(remaining, blocks).remove
  {
    if blocks != [] {
      assert blocks[0] in blocks;
      FillNames(remaining, blocks[1..], i);
      if Fits(blocks[0], remaining) { FillNames(remaining - blocks[0].sizeGb, blocks[1..], i); }
    }
  }

  lemma {:induction false} NamedElsewhere(blocks: seq<Block>, i: nat, ids: seq<nat>)
    requires NoIndex(blocks, i)
    ensures NamedGb(blocks, [i] + ids) == NamedGb(blocks, ids)
  {
    if blocks != [] {
      assert blocks[0] in blocks;
      NamedElsewhere(blocks[1..], i, ids);
    }
  }

  /** What the fill has left of the gap when it comes to block k decides that block. */
  lemma {:induction false} FillWalks(remaining: nat, blocks: seq<Block>, k: nat)
    requires Ascending(blocks) && k < |blocks|
    ensures var p, b := Fill(remaining, blocks), blocks[k];
            if b.active then b.index !in p.activate && b.index !in p.remove
            else
              && (b.index in p.activate <==> b.sizeGb > 0 && NamedGb(blocks[..k], p.activate) + b.sizeGb <= remaining)
              && (b.index in p.remove <==> b.index !in p.activate)
    decreases |blocks|
  {
    var b, rest := blocks[0], blocks[1..];
    var left := if !b.active && Fits(b, remaining) then remaining - b.sizeGb else remaining;
    AscendingTail(blocks);
    FillNames(left, rest, b.index);
    if k > 0 {
      FillWalks(left, rest, k - 1);
      assert blocks[k] in rest && blocks[..k][0] == b && blocks[..k][1..] == rest[..k - 1];
      NamedElsewhere(rest[..k - 1], b.index, Fill(left, rest).activate);
    }
  }

  lemma {:induction false} FillAddsUp(remaining: nat, blocks: seq<Block>)
    requires Ascending(blocks)
    ensures var p := Fill(remaining, blocks); p.createGb + NamedGb(blocks, p.activate) == remaining
  {
    if blocks != [] {
      var b, rest := blocks[0], blocks[1..];
      var left := if !b.active && Fits(b, remaining) then remaining - b.sizeGb else remaining;
      AscendingTail(blocks);
      FillNames(left, rest, b.index);
      FillAddsUp(left, rest);
      NamedElsewhere(rest, b.index, Fill(left, rest).activate);
    }
  }

  lemma {:induction false} FillOrdered(remaining: nat, blocks: seq<Block>)
    requires Ascending(blocks)
    ensures var p := Fill(remaining, blocks);
            && (forall i :: i in p.activate || i in p.remove ==> !NoIndex(blocks, i))
            && Rising(p.activate) && Rising(p.remove)
  {
    if blocks != [] {
      var b, rest := blocks[0], blocks[1..];
      var left := if !b.active && Fits(b, remaining) then remaining - b.sizeGb else remaining;
      AscendingTail(blocks);
      FillOrdered(left, rest);
      forall i | !NoIndex(rest, i) ensures !NoIndex(blocks, i) && b.index < i {
        var c :| c in rest && c.index == i;
        assert c in blocks;
      }
      assert b in blocks;
      RisingCons(b.index, Fill(left, rest).activate);
      RisingCons(b.index, Fill(left, rest).remove);
    }
  }

  lemma PlanOfIs(target: nat, blocks: seq<Block>)
    requires Ascending(blocks)
    ensures PlanIs(PlanOf(target, blocks), target, blocks)
  {
    var gap := Gap(target, blocks);
    FillAddsUp(gap, blocks);
    FillOrdered(gap, blocks);
    forall k: nat | k < |blocks| ensures Placed(PlanOf(target, blocks), target, blocks, k) {
      FillWalks(gap, blocks, k);
    }
  }

  method PlanSwap(target: nat, blocks: seq<Block>) returns (p: Plan)
    ensures p == PlanOf(target, blocks)
  {
    var activeGb := SumActive(blocks);
    var remaining: nat := if target >= activeGb then target - activeGb else 0;
    var activate: seq<nat>, remove: seq<nat> := [], [];
    ghost var whole := Fill(remaining, blocks);
    assert blocks[0..] == blocks && [] + whole.activate == whole.activate && [] + whole.remove == whole.remove;
    for i := 0 to |blocks|
      invariant activate + Fill(remaining, blocks[i..]).activate == whole.activate
      invariant remove + Fill(remaining, blocks[i..]).remove == whole.remove
      invariant Fill(remaining, blocks[i..]).createGb == whole.createGb
    {
      var block := blocks[i];
      assert blocks[i..][1..] == blocks[i + 1..];
      if block.active { continue; }
      if block.sizeGb <= remaining && block.sizeGb > 0 {
        activate := activate + [block.index];
        remaining := remaining - block.sizeGb;
      } else {
        remove := remove + [block.index];
      }
    }
    p := Plan(activate, remove, remaining, if activeGb >= target then activeGb - target else 0);
  }

  method SumActive(blocks: seq<Block>) returns (sum: nat)
    ensures sum == ActiveGb(blocks)
  {
    sum := 0;
    assert blocks[0..] == blocks;
    for i := 0 to |blocks|
      invariant sum + ActiveGb(blocks[i..]) == ActiveGb(blocks)
    {
      assert blocks[i..][1..] == blocks[i + 1..];
      if blocks[i].active { sum := sum + blocks[i].sizeGb; }
    }
  }

  // ---------------------------------------------------------------- the directory

  /** The blocks in index order, and the unfinished files a crash left. */
  datatype Dir = Dir(blocks: seq<Block>, temps: seq<nat>)

  datatype Action =
    | SweepTemp
    | Remove(index: nat)
    | SwapOn(index: nat)
    | Allocate(index: nat)
    | Rename(index: nat, sizeGb: nat)

  function Without(blocks: seq<Block>, i: nat): seq<Block> {
    if blocks == [] then []
    else (if blocks[0].index == i then [] else [blocks[0]]) + Without(blocks[1..], i)
  }

  function Mounted(blocks: seq<Block>, i: nat): seq<Block> {
    if blocks == [] then []
    else [if blocks[0].index == i then blocks[0].(active := true) else blocks[0]] + Mounted(blocks[1..], i)
  }

  function Do(d: Dir, a: Action): Dir {
    match a
    case SweepTemp => if d.temps == [] then d else d.(temps := d.temps[1..])
    case Remove(i) => d.(blocks := Without(d.blocks, i))
    case SwapOn(i) => d.(blocks := Mounted(d.blocks, i))
    case Allocate(i) => d.(temps := d.temps + [i])
    case Rename(i, gb) =>
      Dir(d.blocks + [Block(i, gb, false)], if d.temps == [] then [] else d.temps[..|d.temps| - 1])
  }

  function DoAll(d: Dir, actions: seq<Action>): Dir
    decreases |actions|
  {
    if actions == [] then d else DoAll(Do(d, actions[0]), actions[1..])
  }

  function Removes(ids: seq<nat>): (r: seq<Action>)
    ensures |r| == |ids|
  {
    seq(|ids|, i requires 0 <= i < |ids| => Remove(ids[i]))
  }

  function SwapOns(ids: seq<nat>): (r: seq<Action>)
    ensures |r| == |ids|
  {
    seq(|ids|, i requires 0 <= i < |ids| => SwapOn(ids[i]))
  }

  function Sweeps(n: nat): (r: seq<Action>)
    ensures |r| == n
  {
    seq(n, i => SweepTemp)
  }

  /** One above every block that is kept. */
  function NextIndex(blocks: seq<Block>, removed: seq<nat>): (n: nat)
    ensures forall b :: b in blocks && b.index !in removed ==> b.index < n
  {
    if blocks == [] then 0
    else
      var n := NextIndex(blocks[1..], removed);
      if blocks[0].index in removed then n else Max(n, blocks[0].index + 1)
  }

  function Creates(p: Plan, index: nat): seq<Action> {
    if p.createGb == 0 then [] else [Allocate(index), Rename(index, p.createGb), SwapOn(index)]
  }

  /** Everything a reconcile does, in order. */
  function Actions(target: nat, d: Dir): seq<Action> {
    var p := PlanOf(target, d.blocks);
    Sweeps(|d.temps|) + Removes(p.remove) + SwapOns(p.activate) + Creates(p, NextIndex(d.blocks, p.remove))
  }

  lemma {:induction false} DoAllAppend(d: Dir, a: seq<Action>, b: seq<Action>)
    ensures DoAll(d, a + b) == DoAll(DoAll(d, a), b)
    decreases |a|
  {
    if a == [] {
      assert a + b == b;
    } else {
      DoAllAppend(Do(d, a[0]), a[1..], b);
      assert (a + b)[1..] == a[1..] + b;
    }
  }

  lemma Joined(t: seq<Action>, a: seq<Action>, b: seq<Action>)
    ensures (t + a) + b == t + (a + b)
  {
  }

  lemma InTurn(d: Dir, t: seq<Action>, a: seq<Action>, b: seq<Action>, c: seq<Action>, e: seq<Action>)
    ensures DoAll(d, a + b + c + e) == DoAll(DoAll(DoAll(DoAll(d, a), b), c), e)
    ensures t + a + b + c + e == t + (a + b + c + e)
  {
    Joined(t, a, b);
    Joined(t, a + b, c);
    Joined(t, a + b + c, e);
    DoAllAppend(d, a + b + c, e);
    DoAllAppend(d, a + b, c);
    DoAllAppend(d, a, b);
  }

  lemma DoOne(d: Dir, a: Action)
    ensures DoAll(d, [a]) == Do(d, a)
  {
    assert [a][1..] == [];
  }

  /** The swap manager: its directory, and the operations it ran. */
  class SwapManager {
    var dir: Dir
    ghost var trace: seq<Action>

    constructor ()
      ensures dir == Dir([], []) && trace == []
    {
      dir, trace := Dir([], []), [];
    }

    method Run(a: Action)
      modifies this
      ensures dir == Do(old(dir), a) && trace == old(trace) + [a]
    {
      dir, trace := Do(dir, a), trace + [a];
    }

    method RunAll(actions: seq<Action>)
      modifies this
      ensures dir == DoAll(old(dir), actions) && trace == old(trace) + actions
    {
      ghost var was, traced := dir, trace;
      assert actions[..0] == [];
      for i := 0 to |actions|
        invariant dir == DoAll(was, actions[..i]) && trace == traced + actions[..i]
      {
        Run(actions[i]);
        DoAllAppend(was, actions[..i], [actions[i]]);
        DoOne(DoAll(was, actions[..i]), actions[i]);
        assert actions[..i + 1] == actions[..i] + [actions[i]];
      }
      assert actions[..|actions|] == actions;
    }

    /** Unfinished files swept, the plan made, removals before mounts, the missing gap last. */
    method ReconcileNow(target: nat) returns (activeGb: nat)
      modifies this
      ensures trace == old(trace) + Actions(target, old(dir))
      ensures dir == DoAll(old(dir), Actions(target, old(dir)))
      ensures activeGb == ActiveGb(dir.blocks)
    {
      ghost var was, traced := dir, trace;
      var sweeps := Sweeps(|dir.temps|);
      SweptBlocks(dir, |dir.temps|);
      RunAll(sweeps);
      var blocks := dir.blocks;
      var p := PlanSwap(target, blocks);
      RunAll(Removes(p.remove));
      RunAll(SwapOns(p.activate));
      var index := NextIndex(blocks, p.remove);
      RunAll(Creates(p, index));
      InTurn(was, traced, sweeps, Removes(p.remove), SwapOns(p.activate), Creates(p, index));
      activeGb := SumActive(dir.blocks);
    }
  }

  lemma {:induction false} SweptBlocks(d: Dir, n: nat)
    requires n <= |d.temps|
    ensures DoAll(d, Sweeps(n)) == d.(temps := d.temps[n..])
    decreases n
  {
    if n == 0 {
      assert d.temps[0..] == d.temps && Sweeps(0) == [];
    } else {
      assert Sweeps(n)[1..] == Sweeps(n - 1);
      SweptBlocks(Do(d, SweepTemp), n - 1);
      assert d.temps[1..][n - 1..] == d.temps[n..];
    }
  }

  // ---------------------------------------------------------------- what a reconcile leaves

  /** The plan carried out, but for the new block. */
  function Settled(remaining: nat, blocks: seq<Block>): seq<Block> {
    if blocks == [] then []
    else
      var b := blocks[0];
      if b.active then [b] + Settled(remaining, blocks[1..])
      else if Fits(b, remaining) then [b.(active := true)] + Settled(remaining - b.sizeGb, blocks[1..])
      else Settled(remaining, blocks[1..])
  }

  function WithoutAll(blocks: seq<Block>, ids: seq<nat>): seq<Block>
    decreases |ids|
  {
    if ids == [] then blocks else WithoutAll(Without(blocks, ids[0]), ids[1..])
  }

  function MountedAll(blocks: seq<Block>, ids: seq<nat>): seq<Block>
    decreases |ids|
  {
    if ids == [] then blocks else MountedAll(Mounted(blocks, ids[0]), ids[1..])
  }

  lemma {:induction false} RemovesDo(d: Dir, ids: seq<nat>)
    ensures DoAll(d, Removes(ids)) == d.(blocks := WithoutAll(d.blocks, ids))
    decreases |ids|
  {
    if ids != [] {
      assert Removes(ids)[1..] == Removes(ids[1..]);
      RemovesDo(Do(d, Remove(ids[0])), ids[1..]);
    }
  }

  lemma {:induction false} SwapOnsDo(d: Dir, ids: seq<nat>)
    ensures DoAll(d, SwapOns(ids)) == d.(blocks := MountedAll(d.blocks, ids))
    decreases |ids|
  {
    if ids != [] {
      assert SwapOns(ids)[1..] == SwapOns(ids[1..]);
      SwapOnsDo(Do(d, SwapOn(ids[0])), ids[1..]);
    }
  }

  lemma {:induction false} WithoutNone(blocks: seq<Block>, i: nat)
    requires forall b :: b in blocks ==> b.index != i
    ensures Without(blocks, i) == blocks
  {
    if blocks != [] {
      WithoutNone(blocks[1..], i);
      assert blocks == [blocks[0]] + blocks[1..];
    }
  }

  lemma {:induction false} WithoutRest(b: Block, rest: seq<Block>, ids: seq<nat>)
    requires b.index !in ids
    ensures WithoutAll([b] + rest, ids) == [b] + WithoutAll(rest, ids)
    decreases |ids|
  {
    if ids != [] {
      assert ([b] + rest)[1..] == rest;
      WithoutRest(b, Without(rest, ids[0]), ids[1..]);
    }
  }

  lemma {:induction false} MountedRest(b: Block, rest: seq<Block>, ids: seq<nat>)
    requires b.index !in ids
    ensures MountedAll([b] + rest, ids) == [b] + MountedAll(rest, ids)
    decreases |ids|
  {
    if ids != [] {
      assert ([b] + rest)[1..] == rest;
      MountedRest(b, Mounted(rest, ids[0]), ids[1..]);
    }
  }

  lemma {:induction false} MountedNone(blocks: seq<Block>, i: nat)
    requires forall b :: b in blocks ==> b.index != i
    ensures Mounted(blocks, i) == blocks
  {
    if blocks != [] {
      MountedNone(blocks[1..], i);
      assert blocks == [blocks[0]] + blocks[1..];
    }
  }

  lemma {:induction false} WithoutSubset(blocks: seq<Block>, ids: seq<nat>)
    ensures forall b :: b in WithoutAll(blocks, ids) ==> b in blocks
    decreases |ids|
  {
    if ids != [] {
      WithoutOneSubset(blocks, ids[0]);
      WithoutSubset(Without(blocks, ids[0]), ids[1..]);
    }
  }

  lemma {:induction false} WithoutOneSubset(blocks: seq<Block>, i: nat)
    ensures forall b :: b in Without(blocks, i) <==> b in blocks && b.index != i
  {
    if blocks != [] { WithoutOneSubset(blocks[1..], i); }
  }

  /** Removing, then mounting, what the plan names leaves the blocks settled. */
  lemma {:induction false} PlanSettles(remaining: nat, blocks: seq<Block>)
    requires Ascending(blocks)
    ensures var p := Fill(remaining, blocks);
            MountedAll(WithoutAll(blocks, p.remove), p.activate) == Settled(remaining, blocks)
  {
    if blocks != [] {
      var b, rest := blocks[0], blocks[1..];
      assert blocks == [b] + rest;
      AscendingTail(blocks);
      if b.active {
        var p := Fill(remaining, rest);
        FillNames(remaining, rest, b.index);
        PlanSettles(remaining, rest);
        WithoutRest(b, rest, p.remove);
        MountedRest(b, WithoutAll(rest, p.remove), p.activate);
      } else if Fits(b, remaining) {
        var p := Fill(remaining - b.sizeGb, rest);
        FillNames(remaining - b.sizeGb, rest, b.index);
        PlanSettles(remaining - b.sizeGb, rest);
        WithoutRest(b, rest, p.remove);
        WithoutSubset(rest, p.remove);
        MountedNone(WithoutAll(rest, p.remove), b.index);
        assert ([b] + WithoutAll(rest, p.remove))[1..] == WithoutAll(rest, p.remove);
        assert ([b.index] + p.activate)[1..] == p.activate;
        MountedRest(b.(active := true), WithoutAll(rest, p.remove), p.activate);
      } else {
        var p := Fill(remaining, rest);
        PlanSettles(remaining, rest);
        WithoutNone(rest, b.index);
        assert Without(blocks, b.index) == rest;
        assert ([b.index] + p.remove)[1..] == p.remove;
      }
    }
  }

  /** What is settled is all active, kept every active block, and with the new block is exactly the gap filled. */
  lemma {:induction false} SettledBlocks(remaining: nat, blocks: seq<Block>)
    requires Ascending(blocks)
    ensures var s := Settled(remaining, blocks); var p := Fill(remaining, blocks);
            && (forall b :: b in s ==> b.active)
            && (forall b :: b in blocks && b.active ==> b in s)
            && (forall b :: b in s ==> b in blocks || b.(active := false) in blocks)
            && (forall b :: b in s ==> b.index !in p.remove)
            && ActiveGb(s) + p.createGb == ActiveGb(blocks) + remaining
  {
    if blocks != [] {
      var b, rest := blocks[0], blocks[1..];
      AscendingTail(blocks);
      if !b.active && Fits(b, remaining) {
        FillNames(remaining - b.sizeGb, rest, b.index);
        SettledBlocks(remaining - b.sizeGb, rest);
        assert Settled(remaining, blocks)[1..] == Settled(remaining - b.sizeGb, rest);
      } else {
        FillNames(remaining, rest, b.index);
        SettledBlocks(remaining, rest);
        if b.active { assert Settled(remaining, blocks)[1..] == Settled(remaining, rest); }
      }
    }
  }

  lemma AscendingCons(b: Block, rest: seq<Block>)
    requires Ascending(rest) && forall c :: c in rest ==> b.index < c.index
    ensures Ascending([b] + rest)
  {
  }

  lemma SettledAbove(remaining: nat, blocks: seq<Block>, n: nat)
    requires Ascending(blocks) && forall b :: b in blocks ==> n < b.index
    ensures forall b :: b in Settled(remaining, blocks) ==> n < b.index
  {
    SettledBlocks(remaining, blocks);
  }

  lemma {:induction false} SettledAscending(remaining: nat, blocks: seq<Block>)
    requires Ascending(blocks)
    ensures Ascending(Settled(remaining, blocks))
  {
    if blocks != [] {
      var b, rest := blocks[0], blocks[1..];
      AscendingTail(blocks);
      var left := if !b.active && Fits(b, remaining) then remaining - b.sizeGb else remaining;
      SettledAscending(left, rest);
      SettledAbove(left, rest, b.index);
      AscendingCons(b, Settled(left, rest));
      AscendingCons(b.(active := true), Settled(left, rest));
    }
  }

  lemma {:induction false} ActiveGbLast(blocks: seq<Block>, b: Block)
    ensures ActiveGb(blocks + [b]) == ActiveGb(blocks) + if b.active then b.sizeGb else 0
  {
    if blocks == [] {
      assert [] + [b] == [b] && [b][1..] == [];
    } else {
      assert (blocks + [b])[1..] == blocks[1..] + [b];
      ActiveGbLast(blocks[1..], b);
    }
  }

  lemma {:induction false} MountedLast(blocks: seq<Block>, b: Block)
    requires NoIndex(blocks, b.index)
    ensures Mounted(blocks + [b], b.index) == blocks + [b.(active := true)]
  {
    if blocks == [] {
      assert [] + [b] == [b] && [b][1..] == [];
    } else {
      assert (blocks + [b])[1..] == blocks[1..] + [b] && blocks[0] in blocks;
      MountedLast(blocks[1..], b);
    }
  }

  /** The directory when the plan's removals and mounts are done. */
  lemma PlanCarriedOut(target: nat, d: Dir)
    requires Ascending(d.blocks)
    ensures var p := PlanOf(target, d.blocks);
            DoAll(d, Sweeps(|d.temps|) + Removes(p.remove) + SwapOns(p.activate)) ==
            Dir(Settled(Gap(target, d.blocks), d.blocks), [])
  {
    var p := PlanOf(target, d.blocks);
    SweptBlocks(d, |d.temps|);
    var swept := d.(temps := []);
    DoAllAppend(d, Sweeps(|d.temps|) + Removes(p.remove), SwapOns(p.activate));
    DoAllAppend(d, Sweeps(|d.temps|), Removes(p.remove));
    RemovesDo(swept, p.remove);
    SwapOnsDo(swept.(blocks := WithoutAll(d.blocks, p.remove)), p.activate);
    PlanSettles(Gap(target, d.blocks), d.blocks);
  }

  /** The new block's index: one above the highest kept, or 0 when nothing is kept. */
  lemma {:induction false} NextIndexIs(blocks: seq<Block>, removed: seq<nat>)
    ensures var n := NextIndex(blocks, removed);
            if exists b :: b in blocks && b.index !in removed
            then exists b :: b in blocks && b.index !in removed && n == b.index + 1
            else n == 0
  {
    if blocks != [] {
      NextIndexIs(blocks[1..], removed);
      assert blocks[0] in blocks && forall b :: b in blocks ==> b == blocks[0] || b in blocks[1..];
    }
  }

  /** The index of the new block is above every block that is left. */
  lemma NextIndexUnused(target: nat, d: Dir)
    requires Ascending(d.blocks)
    ensures forall b :: b in Settled(Gap(target, d.blocks), d.blocks) ==>
              b.index < NextIndex(d.blocks, PlanOf(target, d.blocks).remove)
  {
    var gap := Gap(target, d.blocks);
    SettledBlocks(gap, d.blocks);
    forall b | b in Settled(gap, d.blocks) ensures b.index < NextIndex(d.blocks, PlanOf(target, d.blocks).remove) {
      if b !in d.blocks { assert b.(active := false) in d.blocks; }
    }
  }

  /** The new block built under another name, then mounted; `k` is how far it got. */
  function Creating(blocks: seq<Block>, index: nat, gb: nat, k: nat): Dir {
    if k == 0 then Dir(blocks, [])
    else if k == 1 then Dir(blocks, [index])
    else Dir(blocks + [Block(index, gb, k > 2)], [])
  }

  lemma CreatesDo(blocks: seq<Block>, p: Plan, index: nat, k: nat)
    requires NoIndex(blocks, index) && k <= |Creates(p, index)|
    ensures DoAll(Dir(blocks, []), Creates(p, index)[..k]) == Creating(blocks, index, p.createGb, k)
  {
    var d, c := Dir(blocks, []), Creates(p, index);
    assert k == 0 ==> c[..k] == [];
    if k > 0 {
      assert [] + [index] == [index] && [index][..0] == [];
      assert c[..1] == [Allocate(index)];
      DoOne(d, Allocate(index));
    }
    if k > 1 {
      assert c[..2] == [Allocate(index)] + [Rename(index, p.createGb)];
      DoAllAppend(d, [Allocate(index)], [Rename(index, p.createGb)]);
      DoOne(Creating(blocks, index, p.createGb, 1), Rename(index, p.createGb));
    }
    if k > 2 {
      assert c[..3] == c[..2] + [SwapOn(index)];
      DoAllAppend(d, c[..2], [SwapOn(index)]);
      DoOne(Creating(blocks, index, p.createGb, 2), SwapOn(index));
      MountedLast(blocks, Block(index, p.createGb, false));
    }
  }

  lemma AscendingLast(blocks: seq<Block>, b: Block)
    requires Ascending(blocks) && forall c :: c in blocks ==> c.index < b.index
    ensures Ascending(blocks + [b])
  {
    forall i, j | 0 <= i < j < |blocks + [b]| ensures (blocks + [b])[i].index < (blocks + [b])[j].index {
      if j == |blocks| { assert blocks[i] in blocks; }
    }
  }

  ghost predicate AllActive(d: Dir) { d.temps == [] && forall b :: b in d.blocks ==> b.active }

  ghost predicate KeepsActive(d: Dir, e: Dir) { forall b :: b in d.blocks && b.active ==> b in e.blocks }

  /**
   A reconcile that completes: what is mounted comes to exactly the target, or stays what it
   was if that is more; nothing inactive or unfinished is left; every active block is
   untouched; a new block takes an index of its own.
   */
  lemma ReconcileLeaves(target: nat, d: Dir)
    requires Ascending(d.blocks)
    ensures var e := DoAll(d, Actions(target, d));
            && Ascending(e.blocks) && AllActive(e) && KeepsActive(d, e)
            && ActiveGb(e.blocks) == Max(ActiveGb(d.blocks), target)
  {
    var p, gap := PlanOf(target, d.blocks), Gap(target, d.blocks);
    var s, index := Settled(gap, d.blocks), NextIndex(d.blocks, p.remove);
    PlanCarriedOut(target, d);
    NextIndexUnused(target, d);
    SettledBlocks(gap, d.blocks);
    SettledAscending(gap, d.blocks);
    var c := Creates(p, index);
    DoAllAppend(d, Sweeps(|d.temps|) + Removes(p.remove) + SwapOns(p.activate), c);
    CreatesDo(s, p, index, |c|);
    assert c[..|c|] == c;
    var b := Block(index, p.createGb, true);
    AscendingLast(s, b);
    ActiveGbLast(s, b);
  }

  lemma {:induction false} FillNothing(blocks: seq<Block>)
    requires forall b :: b in blocks ==> b.active
    ensures Fill(0, blocks) == Plan([], [], 0, 0)
  {
    if blocks != [] {
      assert blocks[0] in blocks;
      FillNothing(blocks[1..]);
    }
  }

  /** A fixed point: the next reconcile to the same target does nothing. */
  lemma ReconcileSettles(target: nat, d: Dir)
    requires Ascending(d.blocks)
    ensures Actions(target, DoAll(d, Actions(target, d))) == []
  {
    var e := DoAll(d, Actions(target, d));
    ReconcileLeaves(target, d);
    FillNothing(e.blocks);
    assert Gap(target, e.blocks) == 0;
  }

  // ---------------------------------------------------------------- a reboot

  lemma {:induction false} SettledSized(remaining: nat, blocks: seq<Block>)
    requires forall b :: b in blocks && b.active ==> b.sizeGb > 0
    ensures forall b :: b in Settled(remaining, blocks) ==> b.sizeGb > 0
  {
    if blocks != [] {
      var b, rest := blocks[0], blocks[1..];
      assert b in blocks && forall c :: c in rest ==> c in blocks;
      SettledSized(if !b.active && Fits(b, remaining) then remaining - b.sizeGb else remaining, rest);
    }
  }

  ghost predicate AllSized(blocks: seq<Block>) { forall b :: b in blocks ==> b.sizeGb > 0 }

  ghost predicate ActiveSized(blocks: seq<Block>) { forall b :: b in blocks && b.active ==> b.sizeGb > 0 }

  lemma SettledCons(remaining: nat, b: Block, rest: seq<Block>)
    requires !b.active && 0 < b.sizeGb <= remaining
    ensures Settled(remaining, [b] + rest) == [b.(active := true)] + Settled(remaining - b.sizeGb, rest)
    ensures Fill(remaining, [b] + rest).remove == Fill(remaining - b.sizeGb, rest).remove
    ensures Fill(remaining, [b] + rest).createGb == Fill(remaining - b.sizeGb, rest).createGb
  {
    assert ([b] + rest)[1..] == rest;
  }

  /** Every block mounted and of some size. */
  ghost predicate Whole(blocks: seq<Block>) {
    forall k :: 0 <= k < |blocks| ==> blocks[k].active && blocks[k].sizeGb > 0
  }

  lemma WholeTail(blocks: seq<Block>)
    requires Whole(blocks) && blocks != []
    ensures Whole(blocks[1..]) && blocks[0].active && blocks[0].sizeGb > 0
    ensures ActiveGb(blocks) == blocks[0].sizeGb + ActiveGb(blocks[1..])
    ensures blocks == [blocks[0].(active := false).(active := true)] + blocks[1..]
  {
  }

  /** Blocks that all went inactive and come to no more than the gap are all taken back. */
  lemma {:induction false} Refilled(remaining: nat, blocks: seq<Block>)
    requires Whole(blocks) && ActiveGb(blocks) <= remaining
    ensures Settled(remaining, Rebooted(blocks)) == blocks
    ensures Fill(remaining, Rebooted(blocks)).remove == []
    ensures Fill(remaining, Rebooted(blocks)).createGb == remaining - ActiveGb(blocks)
  {
    if blocks != [] {
      WholeTail(blocks);
      Refilled(remaining - blocks[0].sizeGb, blocks[1..]);
      SettledCons(remaining, blocks[0].(active := false), Rebooted(blocks[1..]));
    }
  }

  /** The blocks of a completed reconcile that mounted exactly its target. */
  ghost predicate Full(e: Dir, target: nat) {
    AllActive(e) && Ascending(e.blocks) && ActiveGb(e.blocks) == target
  }

  lemma RefillsWhole(e: Dir, target: nat)
    requires Full(e, target) && AllSized(e.blocks)
    ensures var r := After(e, Reboot);
            && DoAll(r, Actions(target, r)) == e
            && forall a :: a in Actions(target, r) ==> a.SwapOn?
  {
    var r := After(e, Reboot);
    var p := PlanOf(target, r.blocks);
    MishapKeeps(e, Reboot);
    assert Whole(e.blocks);
    Refilled(target, e.blocks);
    PlanCarriedOut(target, r);
    assert Gap(target, r.blocks) == target && p.remove == [] && p.createGb == 0;
    assert Actions(target, r) == Sweeps(|r.temps|) + Removes(p.remove) + SwapOns(p.activate);
    assert Sweeps(|r.temps|) == [] && Removes(p.remove) == [];
    forall a | a in Actions(target, r) ensures a.SwapOn? {
      assert a in SwapOns(p.activate);
      var i :| 0 <= i < |p.activate| && a == SwapOn(p.activate[i]);
    }
  }

  /** A reconcile never mounts an inactive block of no size: what it leaves has one wherever it had. */
  lemma ReconciledSized(target: nat, d: Dir)
    requires Ascending(d.blocks) && ActiveSized(d.blocks)
    ensures AllSized(DoAll(d, Actions(target, d)).blocks)
  {
    var p, gap := PlanOf(target, d.blocks), Gap(target, d.blocks);
    var s, index := Settled(gap, d.blocks), NextIndex(d.blocks, p.remove);
    var c := Creates(p, index);
    SettledSized(gap, d.blocks);
    PlanCarriedOut(target, d);
    NextIndexUnused(target, d);
    DoAllAppend(d, Sweeps(|d.temps|) + Removes(p.remove) + SwapOns(p.activate), c);
    CreatesDo(s, p, index, |c|);
    assert c[..|c|] == c;
  }

  /** What a reconcile leaves, a reboot of it, and a reconcile to the same target again. */
  function Again(target: nat, d: Dir): Dir {
    var r := After(DoAll(d, Actions(target, d)), Reboot);
    DoAll(r, Actions(target, r))
  }

  lemma SizelessLost(target: nat, d: Dir)
    requires Ascending(d.blocks) && !ActiveSized(d.blocks)
    ensures Again(target, d) != DoAll(d, Actions(target, d))
  {
    var e := DoAll(d, Actions(target, d));
    ReconcileLeaves(target, d);
    MishapKeeps(e, Reboot);
    RebootedPlaces(e.blocks);
    ReconciledSized(target, After(e, Reboot));
    var z :| z in d.blocks && z.active && z.sizeGb == 0;
    assert z in e.blocks;
  }

  /**
   The files outlive a reboot: after a reconcile that mounted exactly its target and a
   reboot, a reconcile to that target mounts every block again, in place, and does nothing
   else; no file is deleted and none is built. It does so exactly when no block that was
   active to begin with had no size.
   */
  lemma RebootRestores(target: nat, d: Dir)
    requires Ascending(d.blocks) && ActiveGb(d.blocks) <= target
    ensures (forall b :: b in d.blocks && b.active ==> b.sizeGb > 0) <==>
      Again(target, d) == DoAll(d, Actions(target, d))
    ensures (forall b :: b in d.blocks && b.active ==> b.sizeGb > 0) ==>
      var r := After(DoAll(d, Actions(target, d)), Reboot);
      ActiveGb(r.blocks) == 0 && forall a :: a in Actions(target, r) ==> a.SwapOn?
  {
    if ActiveSized(d.blocks) {
      var e := DoAll(d, Actions(target, d));
      ReconcileLeaves(target, d);
      ReconciledSized(target, d);
      RefillsWhole(e, target);
      MishapKeeps(e, Reboot);
    } else {
      SizelessLost(target, d);
    }
  }

  // ---------------------------------------------------------------- crashes

  lemma {:induction false} WithoutAscending(blocks: seq<Block>, i: nat)
    requires Ascending(blocks)
    ensures Ascending(Without(blocks, i))
  {
    if blocks != [] {
      AscendingTail(blocks);
      WithoutAscending(blocks[1..], i);
      WithoutOneSubset(blocks[1..], i);
      AscendingCons(blocks[0], Without(blocks[1..], i));
    }
  }

  lemma {:induction false} MountedPlaces(blocks: seq<Block>, i: nat)
    ensures |Mounted(blocks, i)| == |blocks|
    ensures forall k :: 0 <= k < |blocks| ==>
              Mounted(blocks, i)[k] == if blocks[k].index == i then blocks[k].(active := true) else blocks[k]
  {
    if blocks != [] { MountedPlaces(blocks[1..], i); }
  }

  /** Steps before the new block: nothing that was active is removed. */
  predicate Quiet(a: Action, spared: set<nat>) {
    a.SweepTemp? || a.SwapOn? || a.Allocate? || (a.Remove? && a.index !in spared)
  }

  ghost function ActiveIndices(blocks: seq<Block>): set<nat> {
    set b | b in blocks && b.active :: b.index
  }

  lemma QuietStep(d: Dir, a: Action, spared: set<nat>, b: Block)
    requires Ascending(d.blocks) && Quiet(a, spared)
    ensures Ascending(Do(d, a).blocks)
    ensures b in d.blocks && b.active && b.index in spared ==> b in Do(d, a).blocks
  {
    if a.Remove? {
      WithoutAscending(d.blocks, a.index);
      WithoutOneSubset(d.blocks, a.index);
    }
    if a.SwapOn? {
      MountedPlaces(d.blocks, a.index);
      if b in d.blocks && b.active {
        var k :| 0 <= k < |d.blocks| && d.blocks[k] == b;
        assert Mounted(d.blocks, a.index)[k] == b;
      }
    }
  }

  lemma {:induction false} QuietSteps(d: Dir, actions: seq<Action>, spared: set<nat>, b: Block)
    requires Ascending(d.blocks) && forall a :: a in actions ==> Quiet(a, spared)
    ensures Ascending(DoAll(d, actions).blocks)
    ensures b in d.blocks && b.active && b.index in spared ==> b in DoAll(d, actions).blocks
    decreases |actions|
  {
    if actions != [] {
      QuietStep(d, actions[0], spared, b);
      forall a | a in actions[1..] ensures Quiet(a, spared) { assert a in actions; }
      QuietSteps(Do(d, actions[0]), actions[1..], spared, b);
    }
  }

  lemma PlanIsQuiet(target: nat, d: Dir)
    requires Ascending(d.blocks)
    ensures var p := PlanOf(target, d.blocks);
            forall a :: a in Sweeps(|d.temps|) + Removes(p.remove) + SwapOns(p.activate) ==>
              Quiet(a, ActiveIndices(d.blocks))
  {
    var p := PlanOf(target, d.blocks);
    SettledBlocks(Gap(target, d.blocks), d.blocks);
    forall a | a in Removes(p.remove) ensures Quiet(a, ActiveIndices(d.blocks)) {
      var i :| 0 <= i < |p.remove| && a == Remove(p.remove[i]);
    }
  }

  /** However far a reconcile got: the directory is sound, and every active block is still there. */
  lemma CutKeeps(target: nat, d: Dir, k: nat)
    requires Ascending(d.blocks) && k <= |Actions(target, d)|
    ensures var e := DoAll(d, Actions(target, d)[..k]); Ascending(e.blocks) && KeepsActive(d, e)
  {
    var p, all := PlanOf(target, d.blocks), Actions(target, d);
    var first := Sweeps(|d.temps|) + Removes(p.remove) + SwapOns(p.activate);
    if k <= |first| {
      assert all[..k] == first[..k];
      CutEarly(target, d, first[..k]);
    } else {
      var index := NextIndex(d.blocks, p.remove);
      assert all[..k] == first + Creates(p, index)[..k - |first|];
      CutLate(target, d, k - |first|);
    }
  }

  lemma CutEarly(target: nat, d: Dir, actions: seq<Action>)
    requires Ascending(d.blocks)
    requires var p := PlanOf(target, d.blocks); actions <= Sweeps(|d.temps|) + Removes(p.remove) + SwapOns(p.activate)
    ensures var e := DoAll(d, actions); Ascending(e.blocks) && KeepsActive(d, e)
  {
    PlanIsQuiet(target, d);
    forall b | b in d.blocks && b.active ensures b in DoAll(d, actions).blocks {
      QuietSteps(d, actions, ActiveIndices(d.blocks), b);
    }
    QuietSteps(d, actions, ActiveIndices(d.blocks), Block(0, 0, false));
  }

  lemma KeptByCreating(d: Dir, s: seq<Block>, index: nat, gb: nat, k: nat)
    requires Ascending(s) && (forall c :: c in s ==> c.index < index)
    requires forall b :: b in d.blocks && b.active ==> b in s
    ensures Ascending(Creating(s, index, gb, k).blocks) && KeepsActive(d, Creating(s, index, gb, k))
  {
    AscendingLast(s, Block(index, gb, k > 2));
  }

  lemma CutLate(target: nat, d: Dir, k: nat)
    requires Ascending(d.blocks)
    requires var p := PlanOf(target, d.blocks); k <= |Creates(p, NextIndex(d.blocks, p.remove))|
    ensures var p := PlanOf(target, d.blocks);
            var e := DoAll(d, Sweeps(|d.temps|) + Removes(p.remove) + SwapOns(p.activate)
                              + Creates(p, NextIndex(d.blocks, p.remove))[..k]);
            Ascending(e.blocks) && KeepsActive(d, e)
  {
    var p, s := PlanOf(target, d.blocks), Settled(Gap(target, d.blocks), d.blocks);
    var index := NextIndex(d.blocks, p.remove);
    PlanCarriedOut(target, d);
    DoAllAppend(d, Sweeps(|d.temps|) + Removes(p.remove) + SwapOns(p.activate), Creates(p, index)[..k]);
    NextIndexUnused(target, d);
    CreatesDo(s, p, index, k);
    SettledBlocks(Gap(target, d.blocks), d.blocks);
    SettledAscending(Gap(target, d.blocks), d.blocks);
    KeptByCreating(d, s, index, p.createGb, k);
  }

  // ---------------------------------------------------------------- room on the disk

  function FileGb(blocks: seq<Block>): nat {
    if blocks == [] then 0 else blocks[0].sizeGb + FileGb(blocks[1..])
  }

  lemma {:induction false} FewerFiles(blocks: seq<Block>, i: nat)
    ensures FileGb(Without(blocks, i)) <= FileGb(blocks) && FileGb(Mounted(blocks, i)) == FileGb(blocks)
  {
    if blocks != [] {
      FewerFiles(blocks[1..], i);
      assert Mounted(blocks, i)[1..] == Mounted(blocks[1..], i);
      assert blocks[0].index == i ==> Without(blocks, i) == Without(blocks[1..], i);
      assert blocks[0].index != i ==> Without(blocks, i)[1..] == Without(blocks[1..], i);
    }
  }

  lemma {:induction false} NoNewFiles(d: Dir, actions: seq<Action>)
    requires forall a :: a in actions ==> a.SweepTemp? || a.Remove? || a.SwapOn?
    ensures FileGb(DoAll(d, actions).blocks) <= FileGb(d.blocks)
    decreases |actions|
  {
    if actions != [] {
      var a := actions[0];
      if !a.SweepTemp? { FewerFiles(d.blocks, a.index); }
      NoNewFiles(Do(d, a), actions[1..]);
    }
  }

  lemma {:induction false} FilesOfActive(blocks: seq<Block>, b: Block)
    requires forall c :: c in blocks ==> c.active
    ensures FileGb(blocks) == ActiveGb(blocks) && FileGb(blocks + [b]) == ActiveGb(blocks) + b.sizeGb
  {
    if blocks == [] {
      assert [] + [b] == [b] && [b][1..] == [];
    } else {
      assert blocks[0] in blocks && forall c :: c in blocks[1..] ==> c in blocks;
      assert (blocks + [b])[1..] == blocks[1..] + [b];
      FilesOfActive(blocks[1..], b);
    }
  }

  lemma FirstOf(a: seq<Action>, b: seq<Action>, k: nat)
    requires k <= |a + b|
    ensures (a + b)[..k] == if k <= |a| then a[..k] else a + b[..k - |a|]
  {
  }

  lemma FilesEarly(target: nat, d: Dir, actions: seq<Action>)
    requires var p := PlanOf(target, d.blocks); actions <= Sweeps(|d.temps|) + Removes(p.remove) + SwapOns(p.activate)
    ensures FileGb(DoAll(d, actions).blocks) <= FileGb(d.blocks)
  {
    var p := PlanOf(target, d.blocks);
    forall a | a in actions ensures a.SweepTemp? || a.Remove? || a.SwapOn? {
      assert a in Sweeps(|d.temps|) + Removes(p.remove) + SwapOns(p.activate);
    }
    NoNewFiles(d, actions);
  }

  /** However much of the new block exists, with the settled blocks it comes to no more than the larger total. */
  lemma FilesLate(target: nat, d: Dir, k: nat)
    requires Ascending(d.blocks)
    requires var p := PlanOf(target, d.blocks); k <= |Creates(p, NextIndex(d.blocks, p.remove))|
    ensures var p := PlanOf(target, d.blocks);
            FileGb(DoAll(Dir(Settled(Gap(target, d.blocks), d.blocks), []),
                         Creates(p, NextIndex(d.blocks, p.remove))[..k]).blocks) <= Max(ActiveGb(d.blocks), target)
  {
    var p, s := PlanOf(target, d.blocks), Settled(Gap(target, d.blocks), d.blocks);
    NextIndexUnused(target, d);
    SettledBlocks(Gap(target, d.blocks), d.blocks);
    CreatesDo(s, p, NextIndex(d.blocks, p.remove), k);
    FilesOfActive(s, Block(NextIndex(d.blocks, p.remove), p.createGb, k > 2));
  }

  /**
   What a reconcile needs of the disk: however far it got, its files come to no more than
   they did before it, what was mounted, or the target, whichever is most. What is not
   wanted goes before anything is built.
   */
  lemma FilesBounded(target: nat, d: Dir, k: nat)
    requires Ascending(d.blocks) && k <= |Actions(target, d)|
    ensures FileGb(DoAll(d, Actions(target, d)[..k]).blocks) <=
      Max(FileGb(d.blocks), Max(ActiveGb(d.blocks), target))
  {
    var p := PlanOf(target, d.blocks);
    var first := Sweeps(|d.temps|) + Removes(p.remove) + SwapOns(p.activate);
    var made := Creates(p, NextIndex(d.blocks, p.remove));
    FirstOf(first, made, k);
    if k <= |first| {
      FilesEarly(target, d, first[..k]);
    } else {
      DoAllAppend(d, first, made[..k - |first|]);
      PlanCarriedOut(target, d);
      FilesLate(target, d, k - |first|);
    }
  }

  function Rebooted(blocks: seq<Block>): seq<Block> {
    if blocks == [] then [] else [blocks[0].(active := false)] + Rebooted(blocks[1..])
  }

  lemma {:induction false} RebootedPlaces(blocks: seq<Block>)
    ensures |Rebooted(blocks)| == |blocks| && ActiveGb(Rebooted(blocks)) == 0
    ensures forall k :: 0 <= k < |blocks| ==> Rebooted(blocks)[k] == blocks[k].(active := false)
  {
    if blocks != [] {
      RebootedPlaces(blocks[1..]);
      assert Rebooted(blocks)[1..] == Rebooted(blocks[1..]);
    }
  }

  /** A reconcile to some target cut after k of its steps, or the host rebooted. */
  datatype Mishap = Cut(target: nat, k: nat) | Reboot

  function After(d: Dir, m: Mishap): Dir {
    match m
    case Cut(target, k) =>
      var all := Actions(target, d);
      DoAll(d, if k <= |all| then all[..k] else all)
    case Reboot => d.(blocks := Rebooted(d.blocks))
  }

  function AfterAll(d: Dir, ms: seq<Mishap>): Dir
    decreases |ms|
  {
    if ms == [] then d else AfterAll(After(d, ms[0]), ms[1..])
  }

  lemma MishapKeeps(d: Dir, m: Mishap)
    requires Ascending(d.blocks)
    ensures Ascending(After(d, m).blocks)
    ensures m.Cut? ==> KeepsActive(d, After(d, m))
    ensures m.Reboot? ==> ActiveGb(After(d, m).blocks) == 0
  {
    match m {
      case Cut(target, k) =>
        var all := Actions(target, d);
        assert all[..|all|] == all;
        CutKeeps(target, d, if k <= |all| then k else |all|);
      case Reboot => RebootedPlaces(d.blocks);
    }
  }

  lemma KeepsOn(d: Dir, e: Dir, f: Dir)
    requires KeepsActive(d, e) && KeepsActive(e, f)
    ensures KeepsActive(d, f)
  {
  }

  lemma {:induction false} MishapsAscend(d: Dir, ms: seq<Mishap>)
    requires Ascending(d.blocks)
    ensures Ascending(AfterAll(d, ms).blocks)
    decreases |ms|
  {
    if ms != [] {
      MishapKeeps(d, ms[0]);
      MishapsAscend(After(d, ms[0]), ms[1..]);
    }
  }

  lemma {:induction false} AfterLast(d: Dir, ms: seq<Mishap>, m: Mishap)
    ensures AfterAll(d, ms + [m]) == After(AfterAll(d, ms), m)
    decreases |ms|
  {
    if ms == [] {
      assert [] + [m] == [m] && [m][1..] == [];
      assert AfterAll(d, [m]) == AfterAll(After(d, m), []);
    } else {
      assert (ms + [m])[1..] == ms[1..] + [m];
      AfterLast(After(d, ms[0]), ms[1..], m);
    }
  }

  lemma RebootLast(d: Dir, ms: seq<Mishap>)
    requires ms != [] && ms[|ms| - 1].Reboot?
    ensures ActiveGb(AfterAll(d, ms).blocks) == 0
  {
    var init := ms[..|ms| - 1];
    assert ms == init + [Reboot];
    AfterLast(d, init, Reboot);
    RebootedPlaces(AfterAll(d, init).blocks);
  }

  lemma {:induction false} CutsKeep(d: Dir, ms: seq<Mishap>)
    requires Ascending(d.blocks) && forall i :: 0 <= i < |ms| ==> ms[i].Cut?
    ensures KeepsActive(d, AfterAll(d, ms))
    decreases |ms|
  {
    if ms != [] {
      var e := After(d, ms[0]);
      MishapKeeps(d, ms[0]);
      CutsKeep(e, ms[1..]);
      KeepsOn(d, e, AfterAll(e, ms[1..]));
    }
  }

  /**
   Whatever came before, reconciles to any targets cut anywhere and reboots in any order,
   the next reconcile that completes mounts exactly the larger of the target and what was
   mounted, exactly the target right after a reboot, leaves nothing inactive or unfinished,
   and is a fixed point. Without a reboot no active block was ever touched.
   */
  lemma NextReconcileSettles(d: Dir, ms: seq<Mishap>, target: nat)
    requires Ascending(d.blocks)
    ensures var c := AfterAll(d, ms);
            var e := DoAll(c, Actions(target, c));
            && ActiveGb(e.blocks) == Max(ActiveGb(c.blocks), target)
            && (ms != [] && ms[|ms| - 1].Reboot? ==> ActiveGb(e.blocks) == target)
            && AllActive(e) && Ascending(e.blocks) && Actions(target, e) == []
            && ((forall m :: m in ms ==> m.Cut?) ==> KeepsActive(d, e))
  {
    MishapsAscend(d, ms);
    ReconcileLeaves(target, AfterAll(d, ms));
    ReconcileSettles(target, AfterAll(d, ms));
    if ms != [] && ms[|ms| - 1].Reboot? { RebootLast(d, ms); }
    if forall m :: m in ms ==> m.Cut? {
      CutsKeep(d, ms);
      KeepsOn(d, AfterAll(d, ms), DoAll(AfterAll(d, ms), Actions(target, AfterAll(d, ms))));
    }
  }
}
