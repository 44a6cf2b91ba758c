/** The n-body problem of the moons (day12/src/main.rs): gravity pulls each
    pair of moons one unit toward each other on every axis, velocity then
    moves each moon, and the energy of a moon is its potential times its
    kinetic energy. Coordinates are `int`; the source's `i64` and `u64`
    overflow is not modelled. */
module Day12 {
  import RustInt

  /** A point or a velocity: the three axes x, y and z. */
  type Vec3 = v: seq<int> | |v| == 3 witness [0, 0, 0]

  datatype Moon = Moon(pos: Vec3, vel: Vec3)

  // ===========================================================================
  // Energy

  /** The sum of the absolute values of the three coordinates. */
  function AbsSum(v: Vec3): (r: nat)
    ensures r == 0 <==> v == [0, 0, 0]
  {
    RustInt.Abs(v[0]) + RustInt.Abs(v[1]) + RustInt.Abs(v[2])
  }

  /** `Moon::pot`: zero exactly at the origin. */
  function Pot(m: Moon): (r: nat)
    ensures r == 0 <==> m.pos == [0, 0, 0]
  {
    AbsSum(m.pos)
  }

  /** `Moon::kin`: zero exactly at rest. */
  function Kin(m: Moon): (r: nat)
    ensures r == 0 <==> m.vel == [0, 0, 0]
  {
    AbsSum(m.vel)
  }

  /** `Moon::tot`: potential times kinetic energy. */
  function Tot(m: Moon): nat {
    Pot(m) * Kin(m)
  }

  /** A moon has no energy exactly when it sits at the origin or is at rest. */
  lemma TotZero(m: Moon)
    ensures Tot(m) == 0 <==> m.pos == [0, 0, 0] || m.vel == [0, 0, 0]
  {
    if Pot(m) > 0 && Kin(m) > 0 {
      assert Pot(m) * Kin(m) >= Kin(m) by {
        RustInt.MulMonotone(1, Pot(m), Kin(m));
      }
    }
  }

  /** `system_energy`: the moons' energies added up. */
  function SystemEnergy(moons: seq<Moon>): (e: nat)
    ensures |moons| == 0 ==> e == 0
    ensures |moons| == 1 ==> e == Tot(moons[0])
  {
    if |moons| == 0 then 0 else SystemEnergy(moons[..|moons| - 1]) + Tot(moons[|moons| - 1])
  }

  /** The system has no energy exactly when no moon has any; otherwise it
      has at least as much as each moon. */
  lemma {:induction false} SystemEnergySpec(moons: seq<Moon>)
    ensures SystemEnergy(moons) == 0 <==> forall k :: 0 <= k < |moons| ==> Tot(moons[k]) == 0
    ensures forall k :: 0 <= k < |moons| ==> Tot(moons[k]) <= SystemEnergy(moons)
    decreases |moons|
  {
    if |moons| > 0 {
      var init := moons[..|moons| - 1];
      SystemEnergySpec(init);
      assert forall k :: 0 <= k < |init| ==> init[k] == moons[k];
    }
  }

  // ===========================================================================
  // Gravity, one axis at a time

  /** The coordinates of the moons on one axis. */
  function Axis(moons: seq<Moon>, ax: nat): (p: seq<int>)
    requires ax < 3
    ensures |p| == |moons| && forall k :: 0 <= k < |moons| ==> p[k] == moons[k].pos[ax]
  {
    seq(|moons|, k requires 0 <= k < |moons| => moons[k].pos[ax])
  }

  /** The pull of `j` on `k`: one unit toward `j`, nothing when level. */
  function Pull(p: seq<int>, k: nat, j: nat): (s: int)
    requires k < |p| && j < |p|
    ensures -1 <= s <= 1
  {
    RustInt.Signum(p[j] - p[k])
  }

  /** The pulls on `k` of the moons below `hi`. */
  function Row(p: seq<int>, k: nat, hi: nat): int
    requires k < |p| && hi <= |p|
  {
    if hi == 0 then 0 else Row(p, k, hi - 1) + Pull(p, k, hi - 1)
  }

  /** The pulls on the moons below `hi` of moon `j`. */
  function Col(p: seq<int>, j: nat, hi: nat): int
    requires j < |p| && hi <= |p|
  {
    if hi == 0 then 0 else Col(p, j, hi - 1) + Pull(p, hi - 1, j)
  }

  /** The pull of `j` on `k` is the opposite of the pull of `k` on `j`. */
  lemma PullAntisymmetric(p: seq<int>, k: nat, j: nat)
    requires k < |p| && j < |p|
    ensures Pull(p, k, j) == -Pull(p, j, k)
  {
    RustInt.SignumAntisymmetric(p[j], p[k]);
  }

  /** What moon `n` pulls out of the moons below `hi` is what they pull
      out of it. */
  lemma {:induction false} RowColCancel(p: seq<int>, n: nat, hi: nat)
    requires n < |p| && hi <= |p|
    ensures Row(p, n, hi) + Col(p, n, hi) == 0
  {
    if hi > 0 {
      RowColCancel(p, n, hi - 1);
      PullAntisymmetric(p, n, hi - 1);
    }
  }

  function Total(p: seq<int>, m: nat, hi: nat): int
    requires m <= |p| && hi <= |p|
  {
    if m == 0 then 0 else Total(p, m - 1, hi) + Row(p, m - 1, hi)
  }

  lemma {:induction false} TotalStep(p: seq<int>, m: nat, hi: nat)
    requires m <= |p| && hi < |p|
    ensures Total(p, m, hi + 1) == Total(p, m, hi) + Col(p, hi, m)
  {
    if m > 0 {
      TotalStep(p, m - 1, hi);
    }
  }

  /** Every pull has an equal and opposite one: the pulls add up to zero. */
  lemma {:induction false} TotalZero(p: seq<int>, n: nat)
    requires n <= |p|
    ensures Total(p, n, n) == 0
  {
    if n > 0 {
      TotalZero(p, n - 1);
      TotalStep(p, n - 1, n - 1);
      RowColCancel(p, n - 1, n - 1);
    }
  }

  // ===========================================================================
  // update_vel, update_pos, simulate

  /** The velocity change `update_vel` gives moon `k` on axis `ax`: one unit
      toward each moon that is ahead of it on that axis. */
  function Gain(moons: seq<Moon>, k: nat, ax: nat): int
    requires k < |moons| && ax < 3
  {
    Row(Axis(moons, ax), k, |moons|)
  }

  /** In one step a moon's velocity changes by at most one unit per other
      moon on each axis. */
  lemma {:induction false} RowBound(p: seq<int>, k: nat, hi: nat)
    requires k < |p| && hi <= |p|
    ensures k < hi ==> -(hi - 1) <= Row(p, k, hi) <= hi - 1
    ensures k >= hi ==> -(hi as int) <= Row(p, k, hi) <= hi
  {
    if hi > 0 {
      RowBound(p, k, hi - 1);
    }
  }

  lemma GainBound(moons: seq<Moon>, k: nat, ax: nat)
    requires k < |moons| && ax < 3
    ensures -(|moons| - 1) <= Gain(moons, k, ax) <= |moons| - 1
  {
    RowBound(Axis(moons, ax), k, |moons|);
  }

  /** The effect of `update_vel`, moon by moon: positions stay, and each
      velocity takes the pull of every other moon. */
  function Gravity(moons: seq<Moon>): (r: seq<Moon>)
    ensures |r| == |moons|
    ensures forall k :: 0 <= k < |moons| ==> r[k].pos == moons[k].pos
  {
    seq(|moons|, k requires 0 <= k < |moons| =>
      Moon(moons[k].pos, seq(3, ax requires 0 <= ax < 3 => moons[k].vel[ax] + Gain(moons, k, ax))))
  }

  /** The gravity of one pair `(a, b)`, axis by axis: `a` moves one unit
      toward `b` and `b` one unit toward `a`. */
  method PairGravity(moons: seq<Moon>, a: nat, b: nat) returns (r: seq<Moon>)
    requires a < b < |moons|
    ensures |r| == |moons|
    ensures forall k :: 0 <= k < |moons| ==> r[k].pos == moons[k].pos
    ensures forall k :: 0 <= k < |moons| && k != a && k != b ==> r[k] == moons[k]
    ensures forall ax :: 0 <= ax < 3 ==>
      && r[a].vel[ax] == moons[a].vel[ax] + RustInt.Signum(moons[b].pos[ax] - moons[a].pos[ax])
      && r[b].vel[ax] == moons[b].vel[ax] - RustInt.Signum(moons[b].pos[ax] - moons[a].pos[ax])
  {
    r := moons;
    for axis := 0 to 3
      invariant |r| == |moons|
      invariant forall k :: 0 <= k < |moons| ==> r[k].pos == moons[k].pos
      invariant forall k :: 0 <= k < |moons| && k != a && k != b ==> r[k] == moons[k]
      invariant forall ax :: 0 <= ax < axis ==>
        && r[a].vel[ax] == moons[a].vel[ax] + RustInt.Signum(moons[b].pos[ax] - moons[a].pos[ax])
        && r[b].vel[ax] == moons[b].vel[ax] - RustInt.Signum(moons[b].pos[ax] - moons[a].pos[ax])
      invariant forall ax :: axis <= ax < 3 ==> r[a].vel[ax] == moons[a].vel[ax] && r[b].vel[ax] == moons[b].vel[ax]
    {
      var vel := RustInt.Signum(r[b].pos[axis] - r[a].pos[axis]);
      r := r[a := Moon(r[a].pos, r[a].vel[axis := r[a].vel[axis] + vel])];
      r := r[b := Moon(r[b].pos, r[b].vel[axis := r[b].vel[axis] - vel])];
    }
  }

  /** How far the pair loops of `update_vel` have got with moon `k` when
      the pair `(a, b)` is next: the moons below the returned bound have
      pulled on `k`. */
  function Done(n: nat, k: nat, a: nat, b: nat): (hi: nat)
    requires a <= b <= n
    ensures hi <= n
  {
    if k < a then n
    else if k == a then b
    else if k < b then a + 1
    else a
  }

  /** What `update_vel` has made of `moons` by the time the pair `(a, b)`
      is next: positions untouched, each velocity moved by the pulls taken
      so far. */
  predicate Progress(moons: seq<Moon>, r: seq<Moon>, a: nat, b: nat) {
    && a <= b <= |moons| && |r| == |moons|
    && (forall k :: 0 <= k < |moons| ==> r[k].pos == moons[k].pos)
    && PullsTaken(moons, r, a, b)
  }

  /** Every velocity of `r` is that of `moons` plus the pulls taken by the
      time the pair `(a, b)` is next. */
  predicate PullsTaken(moons: seq<Moon>, r: seq<Moon>, a: nat, b: nat)
    requires a <= b <= |moons| && |r| == |moons|
  {
    forall k, ax :: 0 <= k < |moons| && 0 <= ax < 3 ==>
      r[k].vel[ax] == moons[k].vel[ax] + Row(Axis(moons, ax), k, Done(|moons|, k, a, b))
  }

  /** Two points agreeing on every axis are the same point. */
  lemma VecExt(v: Vec3, w: Vec3)
    requires v[0] == w[0] && v[1] == w[1] && v[2] == w[2]
    ensures v == w
  {
  }

  /** `r` is `before` after the pair `(a, b)` has pulled its two moons
      together, as `PairGravity` promises. */
  predicate PairApplied(before: seq<Moon>, r: seq<Moon>, a: nat, b: nat)
    requires a < b < |before| && |r| == |before|
  {
    && (forall k :: 0 <= k < |before| ==> r[k].pos == before[k].pos)
    && (forall k :: 0 <= k < |before| && k != a && k != b ==> r[k] == before[k])
    && (forall ax :: 0 <= ax < 3 ==>
      && r[a].vel[ax] == before[a].vel[ax] + RustInt.Signum(before[b].pos[ax] - before[a].pos[ax])
      && r[b].vel[ax] == before[b].vel[ax] - RustInt.Signum(before[b].pos[ax] - before[a].pos[ax]))
  }

  /** Before the first pair no moon has been pulled. */
  lemma Unstarted(moons: seq<Moon>)
    ensures Progress(moons, moons, 0, 0)
  {
    forall k, ax | 0 <= k < |moons| && 0 <= ax < 3
      ensures moons[k].vel[ax] == moons[k].vel[ax] + Row(Axis(moons, ax), k, Done(|moons|, k, 0, 0))
    {
      assert Done(|moons|, k, 0, 0) == 0;
    }
  }

  /** A moon does not pull on itself, so a row may start one pair late. */
  lemma RowStart(moons: seq<Moon>, r: seq<Moon>, a: nat)
    requires a < |moons| && Progress(moons, r, a, a)
    ensures Progress(moons, r, a, a + 1)
  {
    forall k, ax | 0 <= k < |moons| && 0 <= ax < 3
      ensures r[k].vel[ax] == moons[k].vel[ax] + Row(Axis(moons, ax), k, Done(|moons|, k, a, a + 1))
    {
      assert r[k].vel[ax] == moons[k].vel[ax] + Row(Axis(moons, ax), k, Done(|moons|, k, a, a));
      RowStartAt(Axis(moons, ax), a, k);
    }
  }

  /** `RowStart` for one moon of one axis. */
  lemma RowStartAt(p: seq<int>, a: nat, k: nat)
    requires a < |p| && k < |p|
    ensures Row(p, k, Done(|p|, k, a, a + 1)) == Row(p, k, Done(|p|, k, a, a))
  {
    if k == a {
      assert Pull(p, a, a) == 0;
    }
  }

  /** The pair `(a, b)` adds the pull of `b` to `a` and that of `a` to `b`. */
  lemma PairStep(moons: seq<Moon>, before: seq<Moon>, r: seq<Moon>, a: nat, b: nat)
    requires a < b < |moons| && Progress(moons, before, a, b)
    requires |r| == |before| && PairApplied(before, r, a, b)
    ensures Progress(moons, r, a, b + 1)
  {
    PairStepVel(moons, before, r, a, b);
  }

  /** After the pair `(a, b)`, every velocity has the pulls up to it. */
  lemma PairStepVel(moons: seq<Moon>, before: seq<Moon>, r: seq<Moon>, a: nat, b: nat)
    requires a < b < |moons| && Progress(moons, before, a, b)
    requires |r| == |before| && PairApplied(before, r, a, b)
    ensures PullsTaken(moons, r, a, b + 1)
  {
    forall k, ax | 0 <= k < |moons| && 0 <= ax < 3
      ensures r[k].vel[ax] == moons[k].vel[ax] + Row(Axis(moons, ax), k, Done(|moons|, k, a, b + 1))
    {
      PairStepOne(moons, before, r, a, b, k, ax);
    }
  }

  /** `PairStep` for one moon and one axis. */
  lemma PairStepOne(moons: seq<Moon>, before: seq<Moon>, r: seq<Moon>, a: nat, b: nat, k: nat, ax: nat)
    requires a < b < |moons| && Progress(moons, before, a, b)
    requires |r| == |before| && PairApplied(before, r, a, b)
    requires k < |moons| && ax < 3
    ensures r[k].vel[ax] == moons[k].vel[ax] + Row(Axis(moons, ax), k, Done(|moons|, k, a, b + 1))
  {
    var p := Axis(moons, ax);
    var d := RustInt.Signum(before[b].pos[ax] - before[a].pos[ax]);
    assert r[k].vel[ax] == before[k].vel[ax] + if k == a then d else if k == b then -d else 0;
    assert d == Pull(p, a, b);
    var moved := if k == a then d else if k == b then -d else 0;
    assert before[k].vel[ax] == moons[k].vel[ax] + Row(p, k, Done(|moons|, k, a, b));
    PairStepAt(p, a, b, k, moved);
  }

  /** The pair `(a, b)` moves the row sum of `k` by what it adds to `k`. */
  lemma PairStepAt(p: seq<int>, a: nat, b: nat, k: nat, moved: int)
    requires a < b && b < |p| && k < |p|
    requires moved == if k == a then Pull(p, a, b) else if k == b then -Pull(p, a, b) else 0
    ensures Row(p, k, Done(|p|, k, a, b + 1)) == Row(p, k, Done(|p|, k, a, b)) + moved
  {
    if k == b {
      PullAntisymmetric(p, a, b);
    }
  }

  /** The last pair of a row hands over to the first of the next. */
  lemma RowEnd(moons: seq<Moon>, r: seq<Moon>, a: nat)
    requires a < |moons| && Progress(moons, r, a, |moons|)
    ensures Progress(moons, r, a + 1, a + 1)
  {
    var n := |moons|;
    forall k, ax | 0 <= k < n && 0 <= ax < 3
      ensures r[k].vel[ax] == moons[k].vel[ax] + Row(Axis(moons, ax), k, Done(n, k, a + 1, a + 1))
    {
      assert Done(n, k, a, n) == Done(n, k, a + 1, a + 1);
    }
  }

  /** When every moon has had its pulls, the velocities are those of
      `Gravity`. */
  lemma Finished(moons: seq<Moon>, r: seq<Moon>)
    requires |moons| >= 1 && Progress(moons, r, |moons| - 1, |moons| - 1)
    ensures r == Gravity(moons)
  {
    var n := |moons|;
    forall k | 0 <= k < n
      ensures r[k] == Gravity(moons)[k]
    {
      forall ax | 0 <= ax < 3
        ensures r[k].vel[ax] == Gravity(moons)[k].vel[ax]
      {
        assert r[k].vel[ax] == moons[k].vel[ax] + Row(Axis(moons, ax), k, Done(n, k, n - 1, n - 1));
        FinishedAt(Axis(moons, ax), k);
      }
      VecExt(r[k].vel, Gravity(moons)[k].vel);
    }
  }

  /** `Finished` for one moon of one axis: the last moon's own pull is
      nothing. */
  lemma FinishedAt(p: seq<int>, k: nat)
    requires k < |p|
    ensures Row(p, k, Done(|p|, k, |p| - 1, |p| - 1)) == Row(p, k, |p|)
  {
    assert Pull(p, |p| - 1, |p| - 1) == 0;
  }

  /** `update_vel`: every pair `(a, b)` with `a < b`, in order, pulls its
      two moons together. An empty system is the source's `len() - 1`
      underflow panic. */
  method UpdateVel(moons: seq<Moon>) returns (r: seq<Moon>)
    requires |moons| >= 1
    ensures r == Gravity(moons)
  {
    var n := |moons|;
    r := moons;
    Unstarted(moons);
    for a := 0 to n - 1
      invariant Progress(moons, r, a, a)
    {
      RowStart(moons, r, a);
      for b := a + 1 to n
        invariant Progress(moons, r, a, b)
      {
        var before := r;
        r := PairGravity(r, a, b);
        assert PairApplied(before, r, a, b);
        PairStep(moons, before, r, a, b);
      }
      RowEnd(moons, r, a);
    }
    Finished(moons, r);
  }

  /** `update_pos`: each moon moves by its velocity, which stays. */
  function UpdatePos(moons: seq<Moon>): (r: seq<Moon>)
    ensures |r| == |moons|
    ensures forall k :: 0 <= k < |moons| ==> r[k].vel == moons[k].vel
  {
    seq(|moons|, k requires 0 <= k < |moons| =>
      Moon(seq(3, ax requires 0 <= ax < 3 => moons[k].pos[ax] + moons[k].vel[ax]), moons[k].vel))
  }

  /** One time step: gravity, then motion. */
  function Step(moons: seq<Moon>): seq<Moon> {
    UpdatePos(Gravity(moons))
  }

  /** `n` time steps. */
  function Iterate(moons: seq<Moon>, n: nat): (r: seq<Moon>)
    ensures |r| == |moons|
    decreases n
  {
    if n == 0 then moons else Iterate(Step(moons), n - 1)
  }

  /** `simulate`: run `iterations` time steps, then measure the energy. */
  method Simulate(moons: seq<Moon>, iterations: nat) returns (energy: nat)
    requires |moons| >= 1 || iterations == 0
    ensures energy == SystemEnergy(Iterate(moons, iterations))
  {
    var ms := moons;
    for i := 0 to iterations
      invariant |ms| == |moons|
      invariant Iterate(ms, iterations - i) == Iterate(moons, iterations)
    {
      var v := UpdateVel(ms);
      ms := UpdatePos(v);
    }
    energy := SystemEnergy(ms);
  }

  // ===========================================================================
  // Conservation

  /** The sum of the moons' velocities, and of their positions, on one axis. */
  function VelSum(moons: seq<Moon>, ax: nat): int
    requires ax < 3
  {
    if |moons| == 0 then 0 else VelSum(moons[..|moons| - 1], ax) + moons[|moons| - 1].vel[ax]
  }

  function PosSum(moons: seq<Moon>, ax: nat): int
    requires ax < 3
  {
    if |moons| == 0 then 0 else PosSum(moons[..|moons| - 1], ax) + moons[|moons| - 1].pos[ax]
  }

  /** Moons at the same places have the same position sum. */
  lemma {:induction false} PosSumSamePlaces(moons: seq<Moon>, other: seq<Moon>, ax: nat)
    requires ax < 3 && |other| == |moons|
    requires forall k :: 0 <= k < |moons| ==> other[k].pos == moons[k].pos
    ensures PosSum(other, ax) == PosSum(moons, ax)
    decreases |moons|
  {
    if |moons| > 0 {
      PosSumSamePlaces(moons[..|moons| - 1], other[..|moons| - 1], ax);
    }
  }

  /** Gravity adds the total of the pulls to the velocity sum. */
  lemma {:induction false} VelSumGravity(moons: seq<Moon>, m: nat, ax: nat)
    requires m <= |moons| && ax < 3
    ensures VelSum(Gravity(moons)[..m], ax) == VelSum(moons[..m], ax) + Total(Axis(moons, ax), m, |moons|)
  {
    if m > 0 {
      VelSumGravity(moons, m - 1, ax);
      assert Gravity(moons)[..m][..m - 1] == Gravity(moons)[..m - 1];
      assert moons[..m][..m - 1] == moons[..m - 1];
    }
  }

  /** `update_vel` keeps the sum of the velocities on every axis. */
  lemma GravityConservesMomentum(moons: seq<Moon>, ax: nat)
    requires ax < 3
    ensures VelSum(Gravity(moons), ax) == VelSum(moons, ax)
  {
    VelSumGravity(moons, |moons|, ax);
    TotalZero(Axis(moons, ax), |moons|);
    assert Gravity(moons)[..|moons|] == Gravity(moons);
    assert moons[..|moons|] == moons;
  }

  /** `update_pos` moves the position sum by the velocity sum. */
  lemma {:induction false} UpdatePosMovesCentre(moons: seq<Moon>, ax: nat)
    requires ax < 3
    ensures PosSum(UpdatePos(moons), ax) == PosSum(moons, ax) + VelSum(moons, ax)
    ensures VelSum(UpdatePos(moons), ax) == VelSum(moons, ax)
    decreases |moons|
  {
    if |moons| > 0 {
      var init := moons[..|moons| - 1];
      UpdatePosMovesCentre(init, ax);
      assert UpdatePos(moons)[..|moons| - 1] == UpdatePos(init);
    }
  }

  /** Over any number of steps the velocity sum stays put and the position
      sum moves by it at every step. */
  lemma {:induction false} IterateConserves(moons: seq<Moon>, n: nat, ax: nat)
    requires ax < 3
    ensures VelSum(Iterate(moons, n), ax) == VelSum(moons, ax)
    ensures PosSum(Iterate(moons, n), ax) == PosSum(moons, ax) + n * VelSum(moons, ax)
    decreases n
  {
    if n > 0 {
      GravityConservesMomentum(moons, ax);
      UpdatePosMovesCentre(Gravity(moons), ax);
      PosSumSamePlaces(moons, Gravity(moons), ax);
      var next := Step(moons);
      assert VelSum(next, ax) == VelSum(moons, ax);
      assert PosSum(next, ax) == PosSum(moons, ax) + VelSum(moons, ax);
      IterateConserves(next, n - 1, ax);
      assert Iterate(moons, n) == Iterate(next, n - 1);
      assert n * VelSum(moons, ax) == (n - 1) * VelSum(moons, ax) + VelSum(moons, ax);
    }
  }

  // ===========================================================================
  // The example of the source's test: four moons, ten steps, energy 179

  /** The moons before the first step, and after each of the ten steps. */
  const State0: seq<Moon> := [Moon([-1, 0, 2], [0, 0, 0]), Moon([2, -10, -7], [0, 0, 0]), Moon([4, -8, 8], [0, 0, 0]), Moon([3, 5, -1], [0, 0, 0])]
  const State1: seq<Moon> := [Moon([2, -1, 1], [3, -1, -1]), Moon([3, -7, -4], [1, 3, 3]), Moon([1, -7, 5], [-3, 1, -3]), Moon([2, 2, 0], [-1, -3, 1])]
  const State2: seq<Moon> := [Moon([5, -3, -1], [3, -2, -2]), Moon([1, -2, 2], [-2, 5, 6]), Moon([1, -4, -1], [0, 3, -6]), Moon([1, -4, 2], [-1, -6, 2])]
  const State3: seq<Moon> := [Moon([5, -6, -1], [0, -3, 0]), Moon([0, 0, 6], [-1, 2, 4]), Moon([2, 1, -5], [1, 5, -4]), Moon([1, -8, 2], [0, -4, 0])]
  const State4: seq<Moon> := [Moon([2, -8, 0], [-3, -2, 1]), Moon([2, 1, 7], [2, 1, 1]), Moon([2, 3, -6], [0, 2, -1]), Moon([2, -9, 1], [1, -1, -1])]
  const State5: seq<Moon> := [Moon([-1, -9, 2], [-3, -1, 2]), Moon([4, 1, 5], [2, 0, -2]), Moon([2, 2, -4], [0, -1, 2]), Moon([3, -7, -1], [1, 2, -2])]
  const State6: seq<Moon> := [Moon([-1, -7, 3], [0, 2, 1]), Moon([3, 0, 0], [-1, -1, -5]), Moon([3, -2, 1], [1, -4, 5]), Moon([3, -4, -2], [0, 3, -1])]
  const State7: seq<Moon> := [Moon([2, -2, 1], [3, 5, -2]), Moon([1, -4, -4], [-2, -4, -4]), Moon([3, -7, 5], [0, -5, 4]), Moon([2, 0, 0], [-1, 4, 2])]
  const State8: seq<Moon> := [Moon([5, 2, -2], [3, 4, -3]), Moon([2, -7, -5], [1, -3, -1]), Moon([0, -9, 6], [-3, -2, 1]), Moon([1, 1, 3], [-1, 1, 3])]
  const State9: seq<Moon> := [Moon([5, 3, -4], [0, 1, -2]), Moon([2, -9, -3], [0, -2, 2]), Moon([0, -8, 4], [0, 1, -2]), Moon([1, 1, 5], [0, 0, 2])]
  const State10: seq<Moon> := [Moon([2, 1, -3], [-3, -2, 1]), Moon([1, -8, 0], [-1, 1, 3]), Moon([3, -6, 1], [3, 2, -3]), Moon([2, 0, 4], [1, -1, -1])]

  /** The pulls on moon `k` on axis `ax` in a system of four moons, written
      out. */
  function Pulls4(moons: seq<Moon>, k: nat, ax: nat): int
    requires |moons| == 4 && k < 4 && ax < 3
  {
    var x := moons[k].pos[ax];
    RustInt.Signum(moons[0].pos[ax] - x) + RustInt.Signum(moons[1].pos[ax] - x)
      + RustInt.Signum(moons[2].pos[ax] - x) + RustInt.Signum(moons[3].pos[ax] - x)
  }

  /** Moon `k` after one step of a four-moon system, written out. */
  function Move4(moons: seq<Moon>, k: nat): Moon
    requires |moons| == 4 && k < 4
  {
    var m := moons[k];
    var v := [m.vel[0] + Pulls4(moons, k, 0), m.vel[1] + Pulls4(moons, k, 1), m.vel[2] + Pulls4(moons, k, 2)];
    Moon([m.pos[0] + v[0], m.pos[1] + v[1], m.pos[2] + v[2]], v)
  }

  /** One step of a four-moon system, written out moon by moon. */
  function Step4(moons: seq<Moon>): (r: seq<Moon>)
    requires |moons| == 4
    ensures |r| == 4
  {
    [Move4(moons, 0), Move4(moons, 1), Move4(moons, 2), Move4(moons, 3)]
  }

  /** The pulls on a moon among four, one by one. */
  lemma RowFour(p: seq<int>, k: nat)
    requires |p| == 4 && k < 4
    ensures Row(p, k, 4) == Pull(p, k, 0) + Pull(p, k, 1) + Pull(p, k, 2) + Pull(p, k, 3)
  {
    assert Row(p, k, 1) == Pull(p, k, 0);
    assert Row(p, k, 2) == Pull(p, k, 0) + Pull(p, k, 1);
    assert Row(p, k, 3) == Pull(p, k, 0) + Pull(p, k, 1) + Pull(p, k, 2);
  }

  /** `Step` and `Step4` agree on each coordinate of each moon. */
  lemma Step4At(moons: seq<Moon>, k: nat, ax: nat)
    requires |moons| == 4 && k < 4 && ax < 3
    ensures Step(moons)[k].vel[ax] == Move4(moons, k).vel[ax]
    ensures Step(moons)[k].pos[ax] == Move4(moons, k).pos[ax]
  {
    var p := Axis(moons, ax);
    RowFour(p, k);
    assert Gain(moons, k, ax) == Pulls4(moons, k, ax);
    assert Gravity(moons)[k].vel[ax] == moons[k].vel[ax] + Pulls4(moons, k, ax);
  }

  /** The written-out step is `Step` for any four moons. */
  lemma Step4IsStep(moons: seq<Moon>)
    requires |moons| == 4
    ensures Step(moons) == Step4(moons)
  {
    var next := Step4(moons);
    forall k | 0 <= k < 4 ensures Step(moons)[k] == next[k] {
      forall ax | 0 <= ax < 3
        ensures Step(moons)[k].vel[ax] == next[k].vel[ax] && Step(moons)[k].pos[ax] == next[k].pos[ax]
      {
        Step4At(moons, k, ax);
      }
      VecExt(Step(moons)[k].vel, next[k].vel);
      VecExt(Step(moons)[k].pos, next[k].pos);
    }
  }

  /** The states of the example, step by step. */
  function Trajectory(i: nat): seq<Moon>
    requires i <= 10
  {
    if i == 0 then State0
    else if i == 1 then State1
    else if i == 2 then State2
    else if i == 3 then State3
    else if i == 4 then State4
    else if i == 5 then State5
    else if i == 6 then State6
    else if i == 7 then State7
    else if i == 8 then State8
    else if i == 9 then State9
    else State10
  }

  /** Step `k` of the example, one lemma per step. */
  lemma ExampleStep1(i: nat)
    requires i == 0
    ensures |Trajectory(i)| == 4 && Step4(Trajectory(i)) == Trajectory(i + 1)
  {
    assert Trajectory(i) == State0 && Trajectory(i + 1) == State1;
  }

  lemma ExampleStep2(i: nat)
    requires i == 1
    ensures |Trajectory(i)| == 4 && Step4(Trajectory(i)) == Trajectory(i + 1)
  {
    assert Trajectory(i) == State1 && Trajectory(i + 1) == State2;
  }

  lemma ExampleStep3(i: nat)
    requires i == 2
    ensures |Trajectory(i)| == 4 && Step4(Trajectory(i)) == Trajectory(i + 1)
  {
    assert Trajectory(i) == State2 && Trajectory(i + 1) == State3;
  }

  lemma ExampleStep4(i: nat)
    requires i == 3
    ensures |Trajectory(i)| == 4 && Step4(Trajectory(i)) == Trajectory(i + 1)
  {
    assert Trajectory(i) == State3 && Trajectory(i + 1) == State4;
  }

  lemma ExampleStep5(i: nat)
    requires i == 4
    ensures |Trajectory(i)| == 4 && Step4(Trajectory(i)) == Trajectory(i + 1)
  {
    assert Trajectory(i) == State4 && Trajectory(i + 1) == State5;
  }

  lemma ExampleStep6(i: nat)
    requires i == 5
    ensures |Trajectory(i)| == 4 && Step4(Trajectory(i)) == Trajectory(i + 1)
  {
    assert Trajectory(i) == State5 && Trajectory(i + 1) == State6;
  }

  lemma ExampleStep7(i: nat)
    requires i == 6
    ensures |Trajectory(i)| == 4 && Step4(Trajectory(i)) == Trajectory(i + 1)
  {
    assert Trajectory(i) == State6 && Trajectory(i + 1) == State7;
  }

  lemma ExampleStep8(i: nat)
    requires i == 7
    ensures |Trajectory(i)| == 4 && Step4(Trajectory(i)) == Trajectory(i + 1)
  {
    assert Trajectory(i) == State7 && Trajectory(i + 1) == State8;
  }

  lemma ExampleStep9(i: nat)
    requires i == 8
    ensures |Trajectory(i)| == 4 && Step4(Trajectory(i)) == Trajectory(i + 1)
  {
    assert Trajectory(i) == State8 && Trajectory(i + 1) == State9;
  }

  lemma ExampleStep10(i: nat)
    requires i == 9
    ensures |Trajectory(i)| == 4 && Step4(Trajectory(i)) == Trajectory(i + 1)
  {
    assert Trajectory(i) == State9 && Trajectory(i + 1) == State10;
  }

  /** Each state of the example is one step after the one before. */
  lemma TrajectoryStep(i: nat)
    requires i < 10
    ensures |Trajectory(i)| == 4 && Step4(Trajectory(i)) == Trajectory(i + 1)
  {
    if i == 0 { ExampleStep1(i); }
    else if i == 1 { ExampleStep2(i); }
    else if i == 2 { ExampleStep3(i); }
    else if i == 3 { ExampleStep4(i); }
    else if i == 4 { ExampleStep5(i); }
    else if i == 5 { ExampleStep6(i); }
    else if i == 6 { ExampleStep7(i); }
    else if i == 7 { ExampleStep8(i); }
    else if i == 8 { ExampleStep9(i); }
    else { ExampleStep10(i); }
  }

  /** `Iterate` runs from any state of the example to the last one. */
  lemma {:induction false} TrajectoryIterate(i: nat)
    requires i <= 10
    ensures Iterate(Trajectory(i), 10 - i) == Trajectory(10)
    decreases 10 - i
  {
    if i < 10 {
      TrajectoryStep(i);
      Step4IsStep(Trajectory(i));
      TrajectoryIterate(i + 1);
    }
  }

  /** The energies of the moons after ten steps are 36, 45, 80 and 18. */
  lemma ExampleEnergy()
    ensures SystemEnergy(State10) == 179
  {
    var ms := State10;
    assert Tot(ms[0]) == 36 by { assert Pot(ms[0]) == 6 && Kin(ms[0]) == 6; }
    assert Tot(ms[1]) == 45 by { assert Pot(ms[1]) == 9 && Kin(ms[1]) == 5; }
    assert Tot(ms[2]) == 80 by { assert Pot(ms[2]) == 10 && Kin(ms[2]) == 8; }
    assert Tot(ms[3]) == 18 by { assert Pot(ms[3]) == 6 && Kin(ms[3]) == 3; }
    assert SystemEnergy(ms[..1]) == 36 by {
      assert ms[..1][..0] == [];
    }
    assert SystemEnergy(ms[..2]) == 81 by {
      assert ms[..2][..1] == ms[..1];
    }
    assert SystemEnergy(ms[..3]) == 161 by {
      assert ms[..3][..2] == ms[..2];
    }
    assert ms[..4] == ms;
  }

  /** The source's test: ten steps of the example leave a total energy
      of 179. */
  lemma ExampleSimulate()
    ensures SystemEnergy(Iterate(State0, 10)) == 179
  {
    TrajectoryEnergy(0);
  }

  /** The example's energy after ten steps, from a symbolic start index so
      that the states are not unfolded twice. */
  lemma TrajectoryEnergy(i: nat)
    requires i == 0
    ensures SystemEnergy(Iterate(Trajectory(i), 10 - i)) == 179
  {
    TrajectoryIterate(i);
    assert Trajectory(10) == State10;
    ExampleEnergy();
  }
}
