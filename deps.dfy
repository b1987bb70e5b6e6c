/**
 * Dependency markers of the reactivity system. A dep is the set of effects
 * that depend on one reactive value, plus two 32-bit masks: `w` ("was
 * tracked") and `n` ("newly tracked"), one bit per level of nested effect
 * runs. The bit of the current level, `trackOpBit`, is computed in effect.ts,
 * which is not part of this model; it is a parameter here.
 */
module Deps {

  /** A level bit as effect.ts produces it: a single bit, below the sign bit. */
  predicate IsLevelBit(bit: bv32) {
    bit != 0 && bit & (bit - 1) == 0 && bit & 0x8000_0000 == 0
  }

  /**
   * `(mask & trackOpBit) > 0`, as `wasTracked` and `newTracked` compute it:
   * JavaScript's `&` yields a signed 32-bit integer, which is positive when
   * it is not zero and its sign bit is clear.
   */
  predicate Tracked(mask: bv32, bit: bv32) {
    mask & bit != 0 && (mask & bit) & 0x8000_0000 == 0
  }

  /** For a level bit, the signed test is exactly "the bit is set". */
  lemma TrackedIffBitSet(mask: bv32, bit: bv32)
    requires IsLevelBit(bit)
    ensures Tracked(mask, bit) <==> mask & bit != 0
  {
    assert (mask & bit) & 0x8000_0000 == 0;
  }

  /** Setting the level bit makes it set. */
  lemma SetBitTracked(mask: bv32, bit: bv32)
    requires IsLevelBit(bit)
    ensures Tracked(mask | bit, bit)
  {
    TrackedIffBitSet(mask | bit, bit);
  }

  /** Setting a bit keeps every other bit. */
  lemma SetBitKeepsOthers(mask: bv32, bit: bv32)
    ensures (mask | bit) & !bit == mask & !bit
  {
  }

  lemma OrIdempotent(mask: bv32, bit: bv32)
    ensures SetBit(SetBit(mask, bit), bit) == SetBit(mask, bit)
  {
  }

  /** Clearing the level bit makes it unset and keeps every other bit. */
  lemma ClearBitSpec(mask: bv32, bit: bv32)
    requires IsLevelBit(bit)
    ensures !Tracked(mask & !bit, bit)
    ensures (mask & !bit) & !bit == mask & !bit
    ensures (mask & !bit) | bit == mask | bit
  {
    TrackedIffBitSet(mask & !bit, bit);
  }

  /** `mask | trackOpBit`. */
  function SetBit(mask: bv32, bit: bv32): bv32 {
    mask | bit
  }

  /** `mask & ~trackOpBit`. */
  function ClearBit(mask: bv32, bit: bv32): bv32 {
    mask & !bit
  }

  /** The fields of a dep at one moment. */
  datatype DepState = DepState(effects: set<Effect>, w: bv32, n: bv32)

  /** The states of `deps`, element by element. */
  function Snapshot(deps: seq<Dep>): (r: seq<DepState>)
    reads set d | d in deps
    ensures |r| == |deps| && forall j :: 0 <= j < |deps| ==> r[j] == deps[j].State()
  {
    seq(|deps|, j reads set d | d in deps requires 0 <= j < |deps| => deps[j].State())
  }

  /** `d`, once in state `s`, as `finalizeDepMarkers` leaves it. */
  predicate Finalized(d: Dep, s: DepState, kept: bool, effect: Effect, trackOpBit: bv32)
    reads d
  {
    && d.effects == (if kept then s.effects else s.effects - {effect})
    && d.w == ClearBit(s.w, trackOpBit)
    && d.n == ClearBit(s.n, trackOpBit)
  }

  class Effect {
    /** The deps this effect was tracked in, in tracking order. */
    var deps: seq<Dep>

    constructor (deps: seq<Dep>)
      ensures this.deps == deps
    {
      this.deps := deps;
    }
  }

  class Dep {
    var effects: set<Effect>
    var w: bv32
    var n: bv32

    /** `createDep`: the given effects (none when absent) and both masks zero. */
    constructor (effects: seq<Effect>)
      ensures this.effects == set e | e in effects
      ensures w == 0 && n == 0
    {
      this.effects := set e | e in effects;
      w := 0;
      n := 0;
    }

    function State(): DepState
      reads this
    {
      DepState(effects, w, n)
    }

    /** `wasTracked`: the dep was tracked at the current level before the run. */
    predicate WasTracked(trackOpBit: bv32)
      reads this
      ensures IsLevelBit(trackOpBit) ==> (WasTracked(trackOpBit) <==> w & trackOpBit != 0)
    {
      if IsLevelBit(trackOpBit) then TrackedIffBitSet(w, trackOpBit); Tracked(w, trackOpBit)
      else Tracked(w, trackOpBit)
    }

    /** `newTracked`: the dep was tracked again during the current run. */
    predicate NewTracked(trackOpBit: bv32)
      reads this
      ensures IsLevelBit(trackOpBit) ==> (NewTracked(trackOpBit) <==> n & trackOpBit != 0)
    {
      if IsLevelBit(trackOpBit) then TrackedIffBitSet(n, trackOpBit); Tracked(n, trackOpBit)
      else Tracked(n, trackOpBit)
    }
  }

  /**
   * `initDepMarkers`: the level bit is set in `w` of every dep of the effect;
   * nothing else changes.
   */
  method InitDepMarkers(effect: Effect, trackOpBit: bv32)
    modifies effect.deps
    ensures forall d <- old(effect.deps) :: d.w == SetBit(old(d.w), trackOpBit)
    ensures forall d <- old(effect.deps) :: d.n == old(d.n) && d.effects == old(d.effects)
  {
    var deps := effect.deps;
    if |deps| > 0 {
      for i := 0 to |deps|
        invariant forall j :: 0 <= j < i ==> deps[j].w == SetBit(old(deps[j].w), trackOpBit)
        invariant forall j :: i <= j < |deps| ==> deps[j].w in {old(deps[j].w), SetBit(old(deps[j].w), trackOpBit)}
        invariant forall d <- deps :: d.n == old(d.n) && d.effects == old(d.effects)
      {
        var dep := deps[i];
        OrIdempotent(old(dep.w), trackOpBit);
        dep.w := SetBit(dep.w, trackOpBit);
      }
    }
  }

  /** A dep `finalizeDepMarkers` drops: tracked before the run but not during it. */
  predicate Dropped(w: bv32, n: bv32, trackOpBit: bv32) {
    Tracked(w, trackOpBit) && !Tracked(n, trackOpBit)
  }

  /** For each dep of `deps`, whether `finalizeDepMarkers` keeps it, read from its current masks. */
  function KeepMask(deps: seq<Dep>, trackOpBit: bv32): (m: seq<bool>)
    reads set d | d in deps
    ensures |m| == |deps|
    ensures forall j :: 0 <= j < |deps| ==> (m[j] <==> !Dropped(deps[j].w, deps[j].n, trackOpBit))
  {
    seq(|deps|, j reads set d | d in deps requires 0 <= j < |deps| => !Dropped(deps[j].w, deps[j].n, trackOpBit))
  }

  /** The elements of `xs` whose flag in `keep` is set, in their original order. */
  function Select<T>(xs: seq<T>, keep: seq<bool>): (r: seq<T>)
    requires |keep| == |xs|
    ensures |r| <= |xs|
  {
    if xs == [] then []
    else Select(xs[..|xs| - 1], keep[..|xs| - 1]) + (if keep[|xs| - 1] then [xs[|xs| - 1]] else [])
  }

  /** Number of set flags. */
  function CountKept(keep: seq<bool>): nat {
    if keep == [] then 0 else CountKept(keep[..|keep| - 1]) + (if keep[|keep| - 1] then 1 else 0)
  }

  /** `Select` keeps as many elements as there are set flags. */
  lemma {:induction false} SelectLength<T>(xs: seq<T>, keep: seq<bool>)
    requires |keep| == |xs|
    ensures |Select(xs, keep)| == CountKept(keep)
  {
    if xs != [] {
      SelectLength(xs[..|xs| - 1], keep[..|xs| - 1]);
    }
  }

  /** Every flagged element is kept. */
  lemma {:induction false} SelectKeepsFlagged<T>(xs: seq<T>, keep: seq<bool>)
    requires |keep| == |xs|
    ensures forall j :: 0 <= j < |xs| && keep[j] ==> xs[j] in Select(xs, keep)
  {
    if xs != [] {
      var k := |xs| - 1;
      SelectKeepsFlagged(xs[..k], keep[..k]);
      forall j | 0 <= j < k && keep[j] ensures xs[j] in Select(xs, keep) {
        assert xs[..k][j] == xs[j] && keep[..k][j];
      }
    }
  }

  /** Every kept element is a flagged one. */
  lemma {:induction false} SelectOnlyFlagged<T>(xs: seq<T>, keep: seq<bool>)
    requires |keep| == |xs|
    ensures forall x <- Select(xs, keep) :: exists j :: 0 <= j < |xs| && keep[j] && xs[j] == x
  {
    if xs != [] {
      var k := |xs| - 1;
      SelectOnlyFlagged(xs[..k], keep[..k]);
      forall x <- Select(xs, keep) ensures exists j :: 0 <= j < |xs| && keep[j] && xs[j] == x {
        if x in Select(xs[..k], keep[..k]) {
          var j :| 0 <= j < k && keep[..k][j] && xs[..k][j] == x;
          assert keep[j] && xs[j] == x;
        } else {
          assert keep[k] && xs[k] == x;
        }
      }
    }
  }

  /** Selecting from one more element extends the selection of the prefix. */
  lemma SelectStep<T>(xs: seq<T>, keep: seq<bool>, i: nat)
    requires |keep| == |xs| && i < |xs|
    ensures Select(xs[..i + 1], keep[..i + 1]) == Select(xs[..i], keep[..i]) + (if keep[i] then [xs[i]] else [])
  {
    assert xs[..i + 1][..i] == xs[..i];
    assert keep[..i + 1][..i] == keep[..i];
  }

  predicate Distinct<T(==)>(xs: seq<T>) {
    forall j, k :: 0 <= j < k < |xs| ==> xs[j] != xs[k]
  }

  /**
   * One pass of the loop of `finalizeDepMarkers`: a dropped dep loses the
   * effect, a kept one is written at the write pointer, which moves on; both
   * masks lose the level bit.
   */
  method FinalizeOne(effect: Effect, dep: Dep, ptr: nat, trackOpBit: bv32) returns (next: nat)
    requires ptr < |effect.deps|
    modifies effect`deps, dep
    ensures var kept := !Dropped(old(dep.w), old(dep.n), trackOpBit);
      && dep.effects == (if kept then old(dep.effects) else old(dep.effects) - {effect})
      && effect.deps == (if kept then old(effect.deps)[ptr := dep] else old(effect.deps))
      && next == (if kept then ptr + 1 else ptr)
    ensures dep.w == ClearBit(old(dep.w), trackOpBit) && dep.n == ClearBit(old(dep.n), trackOpBit)
    ensures Finalized(dep, old(dep.State()), !Dropped(old(dep.w), old(dep.n), trackOpBit), effect, trackOpBit)
  {
    next := ptr;
    if dep.WasTracked(trackOpBit) && !dep.NewTracked(trackOpBit) {
      dep.effects := dep.effects - {effect};
    } else {
      effect.deps := effect.deps[next := dep];
      next := next + 1;
    }
    dep.w := ClearBit(dep.w, trackOpBit);
    dep.n := ClearBit(dep.n, trackOpBit);
  }

  /** The pass of `finalizeDepMarkers` over `deps[i]`, which keeps the loop's invariants. */
  method FinalizeAt(effect: Effect, deps: seq<Dep>, ghost keep: seq<bool>, ghost before: seq<DepState>,
                    i: nat, ptr: nat, trackOpBit: bv32) returns (next: nat)
    requires Distinct(deps) && i < |deps| == |keep| == |before| && ptr <= i
    requires forall j :: 0 <= j < |deps| ==> (keep[j] <==> !Dropped(before[j].w, before[j].n, trackOpBit))
    requires |effect.deps| == |deps| && effect.deps[..ptr] == Select(deps[..i], keep[..i])
    requires forall j :: i <= j < |deps| ==> deps[j].State() == before[j]
    modifies effect, deps[i]
    ensures next <= i + 1
    ensures |effect.deps| == |deps| && effect.deps[..next] == Select(deps[..i + 1], keep[..i + 1])
    ensures Finalized(deps[i], before[i], keep[i], effect, trackOpBit)
    ensures forall j :: 0 <= j < |deps| && j != i ==> unchanged(deps[j])
  {
    var dep := deps[i];
    SelectStep(deps, keep, i);
    ghost var list := effect.deps;
    next := FinalizeOne(effect, dep, ptr, trackOpBit);
    assert effect.deps[..next] == Select(deps[..i + 1], keep[..i + 1]) by {
      if keep[i] {
        assert effect.deps[..next] == list[..ptr] + [dep];
      }
    }
  }

  /**
   * `finalizeDepMarkers`: the deps list becomes the subsequence of the deps
   * that are not dropped, in their original order; a dropped dep loses the
   * effect, a kept dep keeps its effects; every dep of the old list has the
   * level bit cleared in both masks, the other bits unchanged.
   */
  method FinalizeDepMarkers(effect: Effect, trackOpBit: bv32)
    requires Distinct(effect.deps)
    modifies effect, effect.deps
    ensures effect.deps == Select(old(effect.deps), old(KeepMask(effect.deps, trackOpBit)))
    ensures forall j :: 0 <= j < |old(effect.deps)| ==>
      var d := old(effect.deps)[j];
      && d.effects == (if old(KeepMask(effect.deps, trackOpBit))[j] then old(d.effects) else old(d.effects) - {effect})
      && d.w == ClearBit(old(d.w), trackOpBit)
      && d.n == ClearBit(old(d.n), trackOpBit)
  {
    var deps := effect.deps;
    ghost var keep := KeepMask(deps, trackOpBit);
    ghost var before := Snapshot(deps);
    if |deps| > 0 {
      var ptr := CompactDeps(effect, keep, before, trackOpBit);
      effect.deps := effect.deps[..ptr];
    }
    assert forall j :: 0 <= j < |deps| ==> Finalized(deps[j], before[j], keep[j], effect, trackOpBit);
  }

  /**
   * The loop of `finalizeDepMarkers`: kept deps are written in order from
   * the start of the list, up to the returned write pointer.
   */
  method CompactDeps(effect: Effect, ghost keep: seq<bool>, ghost before: seq<DepState>, trackOpBit: bv32)
    returns (ptr: nat)
    requires Distinct(effect.deps) && |keep| == |before| == |effect.deps|
    requires forall j :: 0 <= j < |effect.deps| ==> (keep[j] <==> !Dropped(before[j].w, before[j].n, trackOpBit))
    requires forall j :: 0 <= j < |effect.deps| ==> effect.deps[j].State() == before[j]
    modifies effect, effect.deps
    ensures ptr <= |effect.deps| == |old(effect.deps)|
    ensures effect.deps[..ptr] == Select(old(effect.deps), keep)
    ensures forall j :: 0 <= j < |old(effect.deps)| ==> Finalized(old(effect.deps)[j], before[j], keep[j], effect, trackOpBit)
  {
    var deps := effect.deps;
    ptr := 0;
    for i := 0 to |deps|
      invariant ptr <= i
      invariant |effect.deps| == |deps|
      invariant effect.deps[..ptr] == Select(deps[..i], keep[..i])
      invariant forall j :: 0 <= j < i ==> Finalized(deps[j], before[j], keep[j], effect, trackOpBit)
      invariant forall j :: i <= j < |deps| ==> deps[j].State() == before[j]
    {
      ptr := FinalizeAt(effect, deps, keep, before, i, ptr, trackOpBit);
    }
    assert deps[..|deps|] == deps && keep[..|keep|] == keep;
  }
}
