/** Fuel for the rocket modules (day01/src/main.rs): the fuel formula, its
    closure over the fuel's own mass, and the two totals over a list of
    module masses. The masses are given as integers (parsing them is not
    modelled) and `i32` overflow is not modelled. */
module Day01 {
  import RustInt

  /** `module_fuel`: a third of the mass, rounded toward zero, less two. */
  function ModuleFuel(mass: int): (f: int)
    ensures mass >= 0 ==> 3 * (f + 2) <= mass < 3 * (f + 2) + 3
    ensures mass < 0 ==> 3 * (f + 2) - 3 < mass <= 3 * (f + 2)
  {
    RustInt.Div(mass, 3) - 2
  }

  /** A heavier module never needs less fuel. */
  lemma ModuleFuelMonotone(a: int, b: int)
    requires a <= b
    ensures ModuleFuel(a) <= ModuleFuel(b)
  {
  }

  /** `dependent_fuel`: the fuel needed to carry `fuel`, then the fuel needed
      to carry that, and so on until the formula gives nothing positive.
      It is never negative and, for non-negative fuel, at most half of it. */
  function DependentFuel(fuel: int): (r: nat)
    ensures ModuleFuel(fuel) <= 0 ==> r == 0
    ensures ModuleFuel(fuel) > 0 ==> r >= ModuleFuel(fuel)
    ensures fuel >= 0 ==> 2 * r <= fuel
    decreases fuel
  {
    var extra := ModuleFuel(fuel);
    if extra <= 0 then 0 else extra + DependentFuel(extra)
  }

  /** More fuel never needs less extra fuel. */
  lemma {:induction false} DependentFuelMonotone(a: int, b: int)
    requires a <= b
    ensures DependentFuel(a) <= DependentFuel(b)
    decreases b
  {
    ModuleFuelMonotone(a, b);
    if ModuleFuel(a) > 0 {
      DependentFuelMonotone(ModuleFuel(a), ModuleFuel(b));
    }
  }

  /** The sum of `f` over `xs`. */
  function SumOf(xs: seq<int>, f: int -> int): (s: int)
    ensures |xs| == 1 ==> s == f(xs[0])
  {
    if |xs| == 0 then 0 else SumOf(xs[..|xs| - 1], f) + f(xs[|xs| - 1])
  }

  /** A sum over a concatenation is the sum of the sums. */
  lemma {:induction false} SumOfAppend(xs: seq<int>, ys: seq<int>, f: int -> int)
    ensures SumOf(xs + ys, f) == SumOf(xs, f) + SumOf(ys, f)
    decreases |ys|
  {
    if |ys| > 0 {
      var init := ys[..|ys| - 1];
      SumOfAppend(xs, init, f);
      assert (xs + ys)[..|xs + ys| - 1] == xs + init;
    } else {
      assert xs + ys == xs;
    }
  }

  /** The fuel that carries one module's fuel. */
  function ModuleDependent(mass: int): (r: int)
    ensures r >= 0
  {
    DependentFuel(ModuleFuel(mass))
  }

  /** The fuel one module needs once the fuel's own mass is counted. */
  function ModuleTotal(mass: int): int {
    ModuleFuel(mass) + ModuleDependent(mass)
  }

  /** `total_fuel`: the formula summed over the masses. */
  function TotalFuel(masses: seq<int>): (t: int)
    ensures |masses| == 0 ==> t == 0
    ensures |masses| == 1 ==> t == ModuleFuel(masses[0])
  {
    SumOf(masses, ModuleFuel)
  }

  /** `recursive_total_fuel`: each module's fuel plus the fuel carrying it. */
  function RecursiveTotalFuel(masses: seq<int>): (t: int)
    ensures |masses| == 0 ==> t == 0
    ensures |masses| == 1 ==> t == ModuleFuel(masses[0]) + DependentFuel(ModuleFuel(masses[0]))
  {
    SumOf(masses, ModuleTotal)
  }

  /** Both totals add up over a split of the module list. */
  lemma TotalsAdditive(a: seq<int>, b: seq<int>)
    ensures TotalFuel(a + b) == TotalFuel(a) + TotalFuel(b)
    ensures RecursiveTotalFuel(a + b) == RecursiveTotalFuel(a) + RecursiveTotalFuel(b)
  {
    SumOfAppend(a, b, ModuleFuel);
    SumOfAppend(a, b, ModuleTotal);
  }

  /** Counting the fuel's own mass never lowers the total, and the excess is
      exactly the dependent fuel of the modules. */
  lemma {:induction false} RecursiveTotalExceedsTotal(masses: seq<int>)
    ensures RecursiveTotalFuel(masses) == TotalFuel(masses) + SumOf(masses, ModuleDependent)
    ensures RecursiveTotalFuel(masses) >= TotalFuel(masses)
    decreases |masses|
  {
    if |masses| > 0 {
      var init, last := masses[..|masses| - 1], masses[|masses| - 1];
      RecursiveTotalExceedsTotal(init);
      assert SumOf(masses, ModuleDependent) == SumOf(init, ModuleDependent) + ModuleDependent(last);
      SumOfNonNegative(masses, ModuleDependent);
    }
  }

  /** A sum of values that are never negative is not negative. */
  lemma {:induction false} SumOfNonNegative(xs: seq<int>, f: int -> int)
    requires forall x :: f(x) >= 0
    ensures SumOf(xs, f) >= 0
    decreases |xs|
  {
    if |xs| > 0 {
      SumOfNonNegative(xs[..|xs| - 1], f);
    }
  }

  /** The worked examples of the puzzle: masses 12, 14, 1969 and 100756. */
  lemma ExampleModuleFuel()
    ensures ModuleFuel(12) == 2 && ModuleFuel(14) == 2
    ensures ModuleFuel(1969) == 654 && ModuleFuel(100756) == 33583
  {
  }

  lemma ExampleSmallModuleTotal()
    ensures ModuleTotal(14) == 2
  {
  }

  lemma ExampleModuleTotal()
    ensures ModuleTotal(1969) == 966
  {
  }

  /** A negative mass shows the truncating division: `-4 / 3` is `-1` in
      Rust, so the formula gives -3 where Euclidean division would give -4. */
  lemma ExampleNegativeMass()
    ensures ModuleFuel(-4) == -3 && -4 / 3 - 2 == -4
  {
  }
}
