/** The growth animation's state (src/components/tree/TreeAnimation.tsx) and
    which of its elements are shown. Times are seconds as reals; the
    element thresholds are those of src/components/tree/treePaths.ts. */
module TreeAnimation {
  import Constants
  import opened Timer

  datatype Phase = Seed | Sprouting | Growing | Complete
  datatype AnimationState = AnimationState(phase: Phase, progress: real)

  const SEED_TO_PLANT: real := Constants.SEED_TO_PLANT_DURATION as real

  /** `Math.min(1, x)`. */
  function Min1(x: real): real {
    if x < 1.0 then x else 1.0
  }

  /** `getAnimationState`: idle is a seed, completed a full tree; a running or
      exceeded timer sprouts over the first two minutes and grows the tree
      over the rest of the duration. */
  function GetAnimationState(elapsed: real, total: real, status: TimerStatus): (a: AnimationState)
    ensures status == Idle ==> a == AnimationState(Seed, 0.0)
    ensures status == Completed ==> a == AnimationState(Complete, 1.0)
    ensures (status == Running || status == Exceeded) && elapsed <= SEED_TO_PLANT ==>
      a == AnimationState(Sprouting, Min1(elapsed / SEED_TO_PLANT))
    ensures (status == Running || status == Exceeded) && elapsed > SEED_TO_PLANT ==>
      a.phase == Growing &&
      (total <= SEED_TO_PLANT ==> a.progress == 1.0) &&
      (total > SEED_TO_PLANT ==> a.progress == Min1((elapsed - SEED_TO_PLANT) / (total - SEED_TO_PLANT)))
    ensures elapsed >= 0.0 ==> 0.0 <= a.progress <= 1.0
  {
    if status == Idle then AnimationState(Seed, 0.0)
    else if status == Completed then AnimationState(Complete, 1.0)
    else if elapsed <= SEED_TO_PLANT then AnimationState(Sprouting, Min1(elapsed / SEED_TO_PLANT))
    else
      var growDuration := total - SEED_TO_PLANT;
      var growElapsed := elapsed - SEED_TO_PLANT;
      AnimationState(Growing, if growDuration > 0.0 then Min1(growElapsed / growDuration) else 1.0)
  }

  const SPROUT_LEAF_THRESHOLDS: seq<real> := [0.4, 0.6, 0.8]
  const BRANCH_THRESHOLDS: seq<real> := [0.1, 0.15, 0.25, 0.3, 0.4, 0.45]
  const CANOPY_THRESHOLDS: seq<real> := [0.2, 0.25, 0.35, 0.4, 0.5, 0.55, 0.6, 0.65, 0.7, 0.75, 0.8, 0.85]

  /** What the component draws: whether the sprout and the tree groups are
      mounted, the stem and trunk lengths, and which leaves and branches are
      shown (scaled up rather than to zero). */
  datatype Scene = Scene(
    showSprout: bool,
    showTree: bool,
    stemLength: real,
    trunkLength: real,
    sproutLeaves: seq<bool>,
    branches: seq<bool>,
    canopy: seq<bool>)

  /** An element of a mounted group is shown exactly when the progress has
      reached its threshold. */
  function Visible(mounted: bool, progress: real, thresholds: seq<real>): (v: seq<bool>)
    ensures |v| == |thresholds|
    ensures forall i :: 0 <= i < |v| ==> (v[i] <==> mounted && progress >= thresholds[i])
  {
    if thresholds == [] then []
    else [mounted && progress >= thresholds[0]] + Visible(mounted, progress, thresholds[1..])
  }

  /** The progress the sprout is drawn to: full once the sprouting phase is over. */
  function SproutProgress(a: AnimationState): real {
    if a.phase == Sprouting then a.progress else 1.0
  }

  /** The progress the tree is drawn to: none before it grows, full once complete. */
  function TreeProgress(a: AnimationState): real {
    if a.phase == Growing then a.progress else if a.phase == Complete then 1.0 else 0.0
  }

  /** The rendering of an animation state: the stem is drawn to the sprout
      progress, the trunk grows three times as fast as the tree progress and
      is full from a third on, and each leaf and branch of a mounted group is
      shown once its group's progress reaches its threshold. */
  function Render(a: AnimationState): (s: Scene)
    ensures s.showSprout <==> a.phase != Seed
    ensures s.showTree <==> a.phase == Growing || a.phase == Complete
    ensures s.trunkLength == Min1(3.0 * TreeProgress(a))
    ensures 0.0 <= TreeProgress(a) <= 1.0 ==> 0.0 <= s.trunkLength <= 1.0
    ensures TreeProgress(a) >= 1.0 / 3.0 ==> s.trunkLength == 1.0
    ensures |s.sproutLeaves| == 3 && |s.branches| == 6 && |s.canopy| == 12
    ensures s.stemLength == SproutProgress(a)
    ensures forall i :: 0 <= i < |s.sproutLeaves| ==>
      (s.sproutLeaves[i] <==> s.showSprout && SproutProgress(a) >= SPROUT_LEAF_THRESHOLDS[i])
    ensures forall i :: 0 <= i < |s.branches| ==>
      (s.branches[i] <==> s.showTree && TreeProgress(a) >= BRANCH_THRESHOLDS[i])
    ensures forall i :: 0 <= i < |s.canopy| ==>
      (s.canopy[i] <==> s.showTree && TreeProgress(a) >= CANOPY_THRESHOLDS[i])
  {
    var sp := SproutProgress(a);
    var tp := TreeProgress(a);
    var showSprout := a.phase != Seed;
    var showTree := a.phase == Growing || a.phase == Complete;
    Scene(showSprout, showTree, sp, Min1(tp * 3.0),
          Visible(showSprout, sp, SPROUT_LEAF_THRESHOLDS),
          Visible(showTree, tp, BRANCH_THRESHOLDS),
          Visible(showTree, tp, CANOPY_THRESHOLDS))
  }

  /** `v` shows everything `u` shows. */
  predicate Covers(u: seq<bool>, v: seq<bool>) {
    |u| == |v| && forall i :: 0 <= i < |u| ==> u[i] ==> v[i]
  }

  lemma VisibleMonotone(m1: bool, p1: real, m2: bool, p2: real, thresholds: seq<real>)
    requires m1 ==> m2
    requires p1 <= p2
    ensures Covers(Visible(m1, p1, thresholds), Visible(m2, p2, thresholds))
  {
  }

  /** Along a running timer of fixed duration, the phase never goes back and
      the sprout and tree progress never drop. */
  lemma {:induction false} ProgressMonotone(e1: real, e2: real, total: real, status: TimerStatus)
    requires status == Running || status == Exceeded
    requires 0.0 <= e1 <= e2
    ensures var a1, a2 := GetAnimationState(e1, total, status), GetAnimationState(e2, total, status);
      SproutProgress(a1) <= SproutProgress(a2) && TreeProgress(a1) <= TreeProgress(a2) &&
      (a1.phase != Seed ==> a2.phase != Seed) &&
      (a1.phase == Growing ==> a2.phase == Growing)
  {
    var a1, a2 := GetAnimationState(e1, total, status), GetAnimationState(e2, total, status);
    if e2 <= SEED_TO_PLANT {
      assert e1 / SEED_TO_PLANT <= e2 / SEED_TO_PLANT;
    } else if e1 > SEED_TO_PLANT && total > SEED_TO_PLANT {
      var g := total - SEED_TO_PLANT;
      DivMonotone(e1 - SEED_TO_PLANT, e2 - SEED_TO_PLANT, g);
    }
  }

  lemma DivMonotone(x: real, y: real, d: real)
    requires x <= y && d > 0.0
    ensures x / d <= y / d
  {
    assert y / d - x / d == (y - x) / d;
  }

  /** As the timer runs, nothing that has appeared disappears. */
  lemma SceneGrows(e1: real, e2: real, total: real, status: TimerStatus)
    requires status == Running || status == Exceeded
    requires 0.0 <= e1 <= e2
    ensures var s1, s2 := Render(GetAnimationState(e1, total, status)), Render(GetAnimationState(e2, total, status));
      (s1.showSprout ==> s2.showSprout) && (s1.showTree ==> s2.showTree) &&
      s1.stemLength <= s2.stemLength && s1.trunkLength <= s2.trunkLength &&
      Covers(s1.sproutLeaves, s2.sproutLeaves) && Covers(s1.branches, s2.branches) &&
      Covers(s1.canopy, s2.canopy)
  {
    var a1, a2 := GetAnimationState(e1, total, status), GetAnimationState(e2, total, status);
    ProgressMonotone(e1, e2, total, status);
    VisibleMonotone(a1.phase != Seed, SproutProgress(a1), a2.phase != Seed, SproutProgress(a2), SPROUT_LEAF_THRESHOLDS);
    var t1, t2 := a1.phase == Growing || a1.phase == Complete, a2.phase == Growing || a2.phase == Complete;
    VisibleMonotone(t1, TreeProgress(a1), t2, TreeProgress(a2), BRANCH_THRESHOLDS);
    VisibleMonotone(t1, TreeProgress(a1), t2, TreeProgress(a2), CANOPY_THRESHOLDS);
  }

  /** A completed timer shows every element in full. */
  lemma CompleteShowsAll(elapsed: real, total: real)
    ensures var s := Render(GetAnimationState(elapsed, total, Completed));
      s.showSprout && s.showTree && s.stemLength == 1.0 && s.trunkLength == 1.0 &&
      (forall i :: 0 <= i < |s.sproutLeaves| ==> s.sproutLeaves[i]) &&
      (forall i :: 0 <= i < |s.branches| ==> s.branches[i]) &&
      (forall i :: 0 <= i < |s.canopy| ==> s.canopy[i])
  {
  }
}
