/** The orbit map (day06/src/main.rs): each object orbits one parent, the
    map from child to parent, the total number of direct and indirect
    orbits, and the walk between two objects through their common ancestor.
    The source's `HashMap` becomes a Dafny `map`; where the source iterates
    it, the model either sums over the key set (whose order does not matter)
    or picks keys in an arbitrary order. */
module Day06 {
  import opened Wrappers
  import Text

  /** The object at the root of the orbit tree. */
  const Com: string := "COM"

  /** Child to parent. */
  type Orbits = map<string, string>

  // ===========================================================================
  // Reading pairs and building the map

  /** `pair_from_iter`: the first two items, trimmed, when there are two. */
  function PairFromIter(items: seq<string>): (r: Option<(string, string)>)
    ensures r.None? <==> |items| < 2
  {
    if |items| < 2 then None else Some((Text.Trim(items[0]), Text.Trim(items[1])))
  }

  /** Only the first two items matter; each half of the pair is a slice of
      its item with only white space cut away, and trimming it again changes
      nothing. */
  lemma PairFromIterSpec(items: seq<string>)
    requires |items| >= 2
    ensures PairFromIter(items) == PairFromIter(items[..2])
    ensures var (a, b) := PairFromIter(items).value;
      && (exists i, j :: 0 <= i <= j <= |items[0]| && a == items[0][i..j])
      && (exists i, j :: 0 <= i <= j <= |items[1]| && b == items[1][i..j])
      && Text.Trim(a) == a && Text.Trim(b) == b
  {
    Text.TrimSpec(items[0]);
    Text.TrimSpec(items[1]);
    Text.TrimIdempotent(items[0]);
    Text.TrimIdempotent(items[1]);
  }

  /** Collecting the reversed pairs into a map: the later of two pairs with
      the same child wins. */
  function ParentMap(pairs: seq<(string, string)>): (m: Orbits)
    ensures |pairs| > 0 ==> pairs[|pairs| - 1].1 in m
  {
    if |pairs| == 0 then map[]
    else
      var (a, b) := pairs[|pairs| - 1];
      ParentMap(pairs[..|pairs| - 1])[b := a]
  }

  /** The children are the keys. */
  lemma {:induction false} ParentMapKeys(pairs: seq<(string, string)>)
    ensures ParentMap(pairs).Keys == set i | 0 <= i < |pairs| :: pairs[i].1
    decreases |pairs|
  {
    if |pairs| > 0 {
      var init := pairs[..|pairs| - 1];
      ParentMapKeys(init);
      assert (set i | 0 <= i < |pairs| :: pairs[i].1)
          == (set i | 0 <= i < |init| :: init[i].1) + {pairs[|pairs| - 1].1};
    }
  }

  /** A child is mapped to the parent of its last pair. */
  lemma {:induction false} ParentMapLastWins(pairs: seq<(string, string)>, i: nat)
    requires i < |pairs|
    requires forall j :: i < j < |pairs| ==> pairs[j].1 != pairs[i].1
    ensures pairs[i].1 in ParentMap(pairs) && ParentMap(pairs)[pairs[i].1] == pairs[i].0
    decreases |pairs|
  {
    var init := pairs[..|pairs| - 1];
    assert ParentMap(pairs) == ParentMap(init)[pairs[|pairs| - 1].1 := pairs[|pairs| - 1].0];
    if i < |pairs| - 1 {
      ParentMapLastWins(init, i);
    }
  }

  /** `build_graph`: the parent map, with `COM` mapped to the empty name. */
  function BuildGraph(pairs: seq<(string, string)>): (m: Orbits)
    ensures Com in m && m[Com] == ""
  {
    ParentMap(pairs)[Com := ""]
  }

  /** The keys of the graph are the children and `COM`; every child other
      than `COM` is mapped to the parent of its last pair. */
  lemma BuildGraphSpec(pairs: seq<(string, string)>, i: nat)
    requires i < |pairs|
    ensures BuildGraph(pairs).Keys == (set i | 0 <= i < |pairs| :: pairs[i].1) + {Com}
    ensures pairs[i].1 != Com && (forall j :: i < j < |pairs| ==> pairs[j].1 != pairs[i].1) ==>
      BuildGraph(pairs)[pairs[i].1] == pairs[i].0
  {
    ParentMapKeys(pairs);
    if pairs[i].1 != Com && (forall j :: i < j < |pairs| ==> pairs[j].1 != pairs[i].1) {
      ParentMapLastWins(pairs, i);
    }
  }

  // ===========================================================================
  // Counting orbits

  /** The inner `loop` of `count_orbits` from object `x`: the number of
      parent links followed before reaching `COM` or an object with no
      parent. The source loops forever when the walk comes back to an object
      it has passed (`seen`); that case is `None`. */
  function Climb(orbits: Orbits, x: string, seen: set<string>): (r: Option<nat>)
    ensures x == Com || x !in orbits ==> r == Some(0)
    decreases orbits.Keys - seen
  {
    if x == Com || x !in orbits then Some(0)
    else if x in seen then None
    else
      var n :- Climb(orbits, orbits[x], seen + {x});
      Some(n + 1)
  }

  /** One key's share of `count_orbits`: one for its own orbit (none for
      `COM`) plus the links above its parent. */
  function Depth(orbits: Orbits, o: string): (r: Option<nat>)
    requires o in orbits
    ensures o != Com && r.Some? ==> r.value >= 1
  {
    var links :- Climb(orbits, orbits[o], {});
    Some(links + if o != Com then 1 else 0)
  }

  /** Adding counts where either may be missing. */
  function AddOpt(a: Option<nat>, b: Option<nat>): (r: Option<nat>)
    ensures r.Some? <==> a.Some? && b.Some?
  {
    if a.Some? && b.Some? then Some(a.value + b.value) else None
  }

  /** The depths of the keys in `keys`, added up. */
  ghost function SumDepth(orbits: Orbits, keys: set<string>): Option<nat>
    requires keys <= orbits.Keys
    decreases keys
  {
    if keys == {} then Some(0)
    else
      var k :| k in keys;
      AddOpt(Depth(orbits, k), SumDepth(orbits, keys - {k}))
  }

  /** The sum does not depend on which key is taken first. */
  lemma {:induction false} SumDepthRemove(orbits: Orbits, keys: set<string>, x: string)
    requires keys <= orbits.Keys && x in keys
    ensures SumDepth(orbits, keys) == AddOpt(Depth(orbits, x), SumDepth(orbits, keys - {x}))
    decreases keys
  {
    var k :| k in keys && SumDepth(orbits, keys) == AddOpt(Depth(orbits, k), SumDepth(orbits, keys - {k}));
    if k != x {
      var both := keys - {k} - {x};
      assert keys - {x} - {k} == both;
      SumDepthRemove(orbits, keys - {k}, x);
      SumDepthRemove(orbits, keys - {x}, k);
      AddOptSwap(Depth(orbits, k), Depth(orbits, x), SumDepth(orbits, both));
    }
  }

  /** Two counts added to a third in either order give the same. */
  lemma AddOptSwap(a: Option<nat>, b: Option<nat>, c: Option<nat>)
    ensures AddOpt(a, AddOpt(b, c)) == AddOpt(b, AddOpt(a, c))
  {
  }

  /** The total the puzzle asks for: the sum of every key's depth, `None`
      when some walk goes round a cycle. */
  ghost function TotalOrbits(orbits: Orbits): Option<nat> {
    SumDepth(orbits, orbits.Keys)
  }

  /** `count_orbits`: visit the keys in any order and add up their depths. */
  method CountOrbits(orbits: Orbits) returns (sum: Option<nat>)
    ensures sum == TotalOrbits(orbits)
  {
    sum := Some(0);
    var rest := orbits.Keys;
    while rest != {}
      invariant rest <= orbits.Keys
      invariant AddOpt(sum, SumDepth(orbits, rest)) == TotalOrbits(orbits)
      decreases rest
    {
      var o :| o in rest;
      SumDepthRemove(orbits, rest, o);
      sum := AddOpt(sum, Depth(orbits, o));
      rest := rest - {o};
    }
  }

  /** Summing the depths over a list of the keys, in list order. */
  function SumDepthSeq(orbits: Orbits, keys: seq<string>): Option<nat>
    requires forall i :: 0 <= i < |keys| ==> keys[i] in orbits
  {
    if |keys| == 0 then Some(0)
    else AddOpt(Depth(orbits, keys[0]), SumDepthSeq(orbits, keys[1..]))
  }

  /** Any listing of a set of keys, each once, sums to the set's total. */
  lemma {:induction false} SumDepthSeqIsTotal(orbits: Orbits, keys: seq<string>, ks: set<string>)
    requires ks <= orbits.Keys
    requires forall i :: 0 <= i < |keys| ==> keys[i] in ks
    requires forall k :: k in ks ==> k in keys
    requires forall i, j :: 0 <= i < j < |keys| ==> keys[i] != keys[j]
    ensures SumDepthSeq(orbits, keys) == SumDepth(orbits, ks)
    decreases |keys|
  {
    if |keys| > 0 {
      var rest := ks - {keys[0]};
      forall k | k in rest ensures k in keys[1..] {
        var i :| 0 <= i < |keys| && keys[i] == k;
        assert keys[1..][i - 1] == k;
      }
      SumDepthSeqIsTotal(orbits, keys[1..], rest);
      SumDepthRemove(orbits, ks, keys[0]);
    } else {
      assert ks == {};
    }
  }

  // ===========================================================================
  // Paths

  /** `p` is a walk towards `dest` that avoids the keys in `seen`: each
      object before the last is not `dest`, has a parent and is followed by
      it, the last object is `dest` or has no parent, no object before the
      last was seen, and no object occurs twice. */
  ghost predicate IsWalk(orbits: Orbits, p: seq<string>, dest: string, seen: set<string>) {
    && |p| >= 1
    && (forall i :: 0 <= i < |p| - 1 ==> p[i] != dest && p[i] in orbits && p[i + 1] == orbits[p[i]])
    && (p[|p| - 1] == dest || p[|p| - 1] !in orbits)
    && (forall i :: 0 <= i < |p| - 1 ==> p[i] !in seen)
    && (forall i, j :: 0 <= i < j < |p| ==> p[i] != p[j])
  }

  /** The `loop` of `path_to` from `x`, having passed the keys in `seen`:
      push the object, stop at `dest` or at an object with no parent, and
      otherwise go on to its parent. Coming back to a passed key is the
      source's endless loop, `None`. */
  function Walk(orbits: Orbits, x: string, dest: string, seen: set<string>): (r: Option<seq<string>>)
    ensures r.Some? ==> IsWalk(orbits, r.value, dest, seen) && r.value[0] == x
    decreases orbits.Keys - seen
  {
    if x == dest || x !in orbits then Some([x])
    else if x in seen then None
    else
      var rest :- Walk(orbits, orbits[x], dest, seen + {x});
      Some([x] + rest)
  }

  /** The walk finds every walk there is: when one exists from `x`, `Walk`
      returns it, so `None` means there is none (the parents go round a
      cycle). With the contract of `Walk` this makes its result exactly the
      walk from `x`. */
  lemma {:induction false} WalkSucceeds(orbits: Orbits, x: string, dest: string, seen: set<string>, p: seq<string>)
    requires IsWalk(orbits, p, dest, seen) && p[0] == x
    ensures Walk(orbits, x, dest, seen) == Some(p)
    decreases |p|
  {
    if |p| == 1 {
      assert p == [x];
    } else {
      assert x != dest && x in orbits && x !in seen && p[1] == orbits[x];
      var rest := p[1..];
      assert IsWalk(orbits, rest, dest, seen + {x}) by {
        forall i | 0 <= i < |rest| - 1 ensures rest[i] !in seen + {x} {
          assert rest[i] == p[i + 1] && p[0] != p[i + 1];
        }
        forall i | 0 <= i < |rest| - 1
          ensures rest[i] != dest && rest[i] in orbits && rest[i + 1] == orbits[rest[i]]
        {
          assert rest[i] == p[i + 1] && rest[i + 1] == p[i + 2];
        }
      }
      WalkSucceeds(orbits, orbits[x], dest, seen + {x}, rest);
      assert p == [x] + rest;
    }
  }

  /** `path_to`: the objects from `x` up to `dest`, or up to the first object
      with no parent; `None` when the parents go round a cycle first. */
  function PathTo(orbits: Orbits, x: string, dest: string): (r: Option<seq<string>>)
    ensures r.Some? ==> IsWalk(orbits, r.value, dest, {}) && r.value[0] == x
    ensures forall p :: IsWalk(orbits, p, dest, {}) && p[0] == x ==> r == Some(p)
  {
    forall p | IsWalk(orbits, p, dest, {}) && p[0] == x
      ensures Walk(orbits, x, dest, {}) == Some(p)
    {
      WalkSucceeds(orbits, x, dest, {}, p);
    }
    Walk(orbits, x, dest, {})
  }

  /** The climb of `count_orbits` and the walk of `path_to` to `COM` follow
      the same links: the climb counts the path's links. */
  lemma {:induction false} ClimbIsWalkLength(orbits: Orbits, x: string, seen: set<string>)
    ensures Climb(orbits, x, seen).Some? <==> Walk(orbits, x, Com, seen).Some?
    ensures Climb(orbits, x, seen).Some? ==>
      Climb(orbits, x, seen).value == |Walk(orbits, x, Com, seen).value| - 1
    decreases orbits.Keys - seen
  {
    if x != Com && x in orbits && x !in seen {
      ClimbIsWalkLength(orbits, orbits[x], seen + {x});
    }
  }

  /** A key's depth is the number of objects on its parent's path to `COM`,
      one fewer when the key is `COM` itself. */
  lemma DepthIsPathLength(orbits: Orbits, o: string)
    requires o in orbits
    ensures Depth(orbits, o).Some? <==> PathTo(orbits, orbits[o], Com).Some?
    ensures Depth(orbits, o).Some? ==>
      Depth(orbits, o).value == |PathTo(orbits, orbits[o], Com).value| - (if o == Com then 1 else 0)
  {
    ClimbIsWalkLength(orbits, orbits[o], {});
  }

  /** A walk stays a walk when an object whose parent starts it, other than
      `dest` and not already on it, is put in front. */
  lemma WalkExtend(orbits: Orbits, y: string, p: seq<string>, dest: string) returns (q: seq<string>)
    requires IsWalk(orbits, p, dest, {}) && y != dest && y in orbits && orbits[y] == p[0] && y !in p
    ensures q == [y] + p && IsWalk(orbits, q, dest, {})
  {
    q := [y] + p;
    forall i | 0 <= i < |q| - 1 ensures q[i] != dest && q[i] in orbits && q[i + 1] == orbits[q[i]] {
      if i > 0 {
        assert q[i] == p[i - 1] && q[i + 1] == p[i];
      }
    }
    forall i, j | 0 <= i < j < |q| ensures q[i] != q[j] {
      if i > 0 {
        assert q[i] == p[i - 1] && q[j] == p[j - 1];
      } else {
        assert q[j] == p[j - 1];
      }
    }
  }

  /** A climb along a walk to `COM` succeeds and counts its links. */
  lemma ClimbSucceeds(orbits: Orbits, p: seq<string>, seen: set<string>)
    requires IsWalk(orbits, p, Com, seen)
    ensures Climb(orbits, p[0], seen) == Some(|p| - 1)
  {
    WalkSucceeds(orbits, p[0], Com, seen, p);
    ClimbIsWalkLength(orbits, p[0], seen);
  }

  /** A key whose parent walks to `COM` has a depth: the number of objects
      on that walk, one fewer for `COM` itself. */
  lemma DepthSucceeds(orbits: Orbits, o: string, p: seq<string>)
    requires o in orbits && IsWalk(orbits, p, Com, {}) && p[0] == orbits[o]
    ensures Depth(orbits, o) == Some(|p| - if o == Com then 1 else 0)
  {
    ClimbSucceeds(orbits, p, {});
  }

  /** The sum over a set of keys is defined exactly when every key's depth
      is; so `count_orbits` returns a count exactly when no key's climb goes
      round a cycle. */
  lemma {:induction false} SumDepthSome(orbits: Orbits, keys: set<string>)
    requires keys <= orbits.Keys
    ensures SumDepth(orbits, keys).Some? <==> forall k :: k in keys ==> Depth(orbits, k).Some?
    decreases keys
  {
    if keys != {} {
      var x :| x in keys;
      SumDepthRemove(orbits, keys, x);
      SumDepthSome(orbits, keys - {x});
    }
  }

  /** The `i`-th elements from the end of `a` and `b` agree. */
  predicate AgreeFromEnd(a: seq<string>, b: seq<string>, i: nat)
    requires i < |a| && i < |b|
  {
    a[|a| - 1 - i] == b[|b| - 1 - i]
  }

  /** The length of the longest common suffix of `a` and `b`. */
  function CommonSuffix(a: seq<string>, b: seq<string>): (n: nat)
    ensures n <= |a| && n <= |b|
    ensures forall i :: 0 <= i < n ==> AgreeFromEnd(a, b, i)
    ensures n < |a| && n < |b| ==> !AgreeFromEnd(a, b, n)
  {
    if |a| == 0 || |b| == 0 || a[|a| - 1] != b[|b| - 1] then 0
    else
      var a', b' := a[..|a| - 1], b[..|b| - 1];
      var n := CommonSuffix(a', b');
      assert forall i :: 0 < i <= n ==> AgreeFromEnd(a, b, i) == AgreeFromEnd(a', b', i - 1);
      assert n < |a'| && n < |b'| ==> AgreeFromEnd(a, b, n + 1) == AgreeFromEnd(a', b', n);
      1 + n
  }

  /** The `loop` of `find_1st_intersection` after `k` elements of each
      reversed path agreed, the last of them `found`: stop at the first
      disagreement. Running off either path is the source's `unwrap` on an
      exhausted iterator, `None`. */
  function Scan(a: seq<string>, b: seq<string>, k: nat, found: string): (r: Option<string>)
    ensures r.Some? ==> r.value == found || (r.value in a && r.value in b)
    decreases |a| - k
  {
    if k >= |a| || k >= |b| then None
    else if a[|a| - 1 - k] != b[|b| - 1 - k] then Some(found)
    else Scan(a, b, k + 1, a[|a| - 1 - k])
  }

  /** `find_1st_intersection`: `a[0]` (a panic when `a` is empty) until the
      scan from the back finds an agreeing element. */
  function FindFirstIntersection(a: seq<string>, b: seq<string>): (r: Option<string>)
    ensures r.Some? ==> r.value in a && (r.value == a[0] || r.value in b)
  {
    if |a| == 0 then None else Scan(a, b, 0, a[0])
  }

  /** The scan finds the first element of the longest common suffix, `a[0]`
      when the last elements differ, and fails when one path is a suffix of
      the other. */
  lemma FindFirstIntersectionSpec(a: seq<string>, b: seq<string>)
    ensures var n := CommonSuffix(a, b);
      FindFirstIntersection(a, b) ==
        if |a| == 0 || n == |a| || n == |b| then None
        else if n == 0 then Some(a[0])
        else Some(a[|a| - n])
  {
    if |a| > 0 {
      ScanFindsSuffix(a, b, 0, a[0]);
    }
  }

  /** The scan after `k` agreeing elements ends as the common suffix says. */
  lemma {:induction false} ScanFindsSuffix(a: seq<string>, b: seq<string>, k: nat, found: string)
    requires k <= CommonSuffix(a, b)
    requires k > 0 ==> found == a[|a| - k]
    ensures var n := CommonSuffix(a, b);
      Scan(a, b, k, found) ==
        if n == |a| || n == |b| then None
        else if n == 0 then Some(found)
        else Some(a[|a| - n])
    decreases |a| - k
  {
    var n := CommonSuffix(a, b);
    if k < |a| && k < |b| && AgreeFromEnd(a, b, k) {
      assert k < n;
      ScanFindsSuffix(a, b, k + 1, a[|a| - 1 - k]);
    }
  }

  /** `reduce_path`: drop elements from the end until the last one is
      `dest`; an empty path is the source's `unwrap` panic. */
  function ReducePath(path: seq<string>, dest: string): (r: Option<seq<string>>)
    ensures r.Some? <==> dest in path
    ensures r.Some? ==> var p := r.value;
      && 0 < |p| <= |path| && p == path[..|p|] && p[|p| - 1] == dest
      && dest !in path[|p|..]
  {
    if |path| == 0 then None
    else if path[|path| - 1] == dest then Some(path)
    else
      var init := path[..|path| - 1];
      assert path == init + [path[|path| - 1]];
      ReducePath(init, dest)
  }

  // ===========================================================================
  // The test map

  const TestPairs: seq<(string, string)> := [
    ("COM", "B"), ("B", "C"), ("C", "D"), ("D", "E"), ("E", "F"), ("B", "G"),
    ("G", "H"), ("D", "I"), ("E", "J"), ("J", "K"), ("K", "L")]

  const TestGraph: Orbits := map[
    "B" := "COM", "C" := "B", "D" := "C", "E" := "D", "F" := "E", "G" := "B",
    "H" := "G", "I" := "D", "J" := "E", "K" := "J", "L" := "K", "COM" := ""]

  /** The shape of the test map: its keys and each one's parent. */
  predicate TestShape(g: Orbits) {
    && g.Keys == {"COM", "B", "C", "D", "E", "F", "G", "H", "I", "J", "K", "L"}
    && g["COM"] == "" && g["B"] == "COM" && g["C"] == "B" && g["D"] == "C" && g["E"] == "D" && g["F"] == "E" && g["G"] == "B" && g["H"] == "G" && g["I"] == "D" && g["J"] == "E" && g["K"] == "J" && g["L"] == "K"
  }

  /** The parents in the test map walk to `COM` along its two branches:
      from B, C, D, E, J, K and G, one object longer at each step. */
  lemma ExampleWalks(g: Orbits) returns (b: seq<string>, c: seq<string>, d: seq<string>, e: seq<string>,
                                        j: seq<string>, k: seq<string>, h: seq<string>)
    requires TestShape(g)
    ensures IsWalk(g, b, Com, {}) && b[0] == "B" && |b| == 2
    ensures IsWalk(g, c, Com, {}) && c[0] == "C" && |c| == 3
    ensures IsWalk(g, d, Com, {}) && d[0] == "D" && |d| == 4
    ensures IsWalk(g, e, Com, {}) && e[0] == "E" && |e| == 5
    ensures IsWalk(g, j, Com, {}) && j[0] == "J" && |j| == 6
    ensures IsWalk(g, k, Com, {}) && k[0] == "K" && |k| == 7
    ensures IsWalk(g, h, Com, {}) && h[0] == "G" && |h| == 3
  {
    b := WalkExtend(g, "B", ["COM"], Com);
    c := WalkExtend(g, "C", b, Com);
    d := WalkExtend(g, "D", c, Com);
    e := WalkExtend(g, "E", d, Com);
    j := WalkExtend(g, "J", e, Com);
    k := WalkExtend(g, "K", j, Com);
    h := WalkExtend(g, "G", b, Com);
  }

  /** The depth of every key of the test map, read off the walk from its
      parent to `COM`. */
  lemma ExampleDepths(g: Orbits)
    requires TestShape(g)
    ensures Depth(g, "COM") == Some(0) && Depth(g, "B") == Some(1) && Depth(g, "C") == Some(2)
    ensures Depth(g, "D") == Some(3) && Depth(g, "E") == Some(4) && Depth(g, "F") == Some(5)
    ensures Depth(g, "G") == Some(2) && Depth(g, "H") == Some(3) && Depth(g, "I") == Some(4)
    ensures Depth(g, "J") == Some(5) && Depth(g, "K") == Some(6) && Depth(g, "L") == Some(7)
  {
    var b, c, d, e, j, k, h := ExampleWalks(g);
    DepthSucceeds(g, "COM", [""]);
    DepthSucceeds(g, "B", ["COM"]);
    DepthSucceeds(g, "C", b);
    DepthSucceeds(g, "D", c);
    DepthSucceeds(g, "E", d);
    DepthSucceeds(g, "F", e);
    DepthSucceeds(g, "G", b);
    DepthSucceeds(g, "H", h);
    DepthSucceeds(g, "I", d);
    DepthSucceeds(g, "J", e);
    DepthSucceeds(g, "K", j);
    DepthSucceeds(g, "L", k);
  }

  lemma ExampleSumA(g: Orbits)
    requires TestShape(g)
    ensures SumDepthSeq(g, ["COM", "B", "C", "D"]) == Some(6)
  {
    ExampleDepths(g);
    assert SumDepthSeq(g, ["D"]) == Some(3);
    assert ["C", "D"][1..] == ["D"];
    assert SumDepthSeq(g, ["C", "D"]) == Some(5);
    assert ["B", "C", "D"][1..] == ["C", "D"];
    assert SumDepthSeq(g, ["B", "C", "D"]) == Some(6);
    assert ["COM", "B", "C", "D"][1..] == ["B", "C", "D"];
    assert SumDepthSeq(g, ["COM", "B", "C", "D"]) == Some(6);
  }

  lemma ExampleSumB(g: Orbits)
    requires TestShape(g)
    ensures SumDepthSeq(g, ["E", "F", "G", "H"]) == Some(14)
  {
    ExampleDepths(g);
    assert SumDepthSeq(g, ["H"]) == Some(3);
    assert ["G", "H"][1..] == ["H"];
    assert SumDepthSeq(g, ["G", "H"]) == Some(5);
    assert ["F", "G", "H"][1..] == ["G", "H"];
    assert SumDepthSeq(g, ["F", "G", "H"]) == Some(10);
    assert ["E", "F", "G", "H"][1..] == ["F", "G", "H"];
    assert SumDepthSeq(g, ["E", "F", "G", "H"]) == Some(14);
  }

  lemma ExampleSumC(g: Orbits)
    requires TestShape(g)
    ensures SumDepthSeq(g, ["I", "J", "K", "L"]) == Some(22)
  {
    ExampleDepths(g);
    assert SumDepthSeq(g, ["L"]) == Some(7);
    assert ["K", "L"][1..] == ["L"];
    assert SumDepthSeq(g, ["K", "L"]) == Some(13);
    assert ["J", "K", "L"][1..] == ["K", "L"];
    assert SumDepthSeq(g, ["J", "K", "L"]) == Some(18);
    assert ["I", "J", "K", "L"][1..] == ["J", "K", "L"];
    assert SumDepthSeq(g, ["I", "J", "K", "L"]) == Some(22);
  }

  const TestKeys: seq<string> := ["COM", "B", "C", "D", "E", "F", "G", "H", "I", "J", "K", "L"]

  lemma SumDepthSeqAppend(orbits: Orbits, a: seq<string>, b: seq<string>)
    requires forall i :: 0 <= i < |a| ==> a[i] in orbits
    requires forall i :: 0 <= i < |b| ==> b[i] in orbits
    ensures SumDepthSeq(orbits, a + b) == AddOpt(SumDepthSeq(orbits, a), SumDepthSeq(orbits, b))
  {
    if |a| > 0 {
      assert (a + b)[1..] == a[1..] + b;
      SumDepthSeqAppend(orbits, a[1..], b);
    } else {
      assert a + b == b;
    }
  }

  /** Visiting the keys in the order of the test's listing gives 42. */
  lemma ExampleSum(g: Orbits)
    requires TestShape(g)
    ensures SumDepthSeq(g, TestKeys) == Some(42)
  {
    var a, b, c := ["COM", "B", "C", "D"], ["E", "F", "G", "H"], ["I", "J", "K", "L"];
    ExampleSumA(g); ExampleSumB(g); ExampleSumC(g);
    assert TestKeys == a + b + c;
    SumDepthSeqAppend(g, a, b);
    SumDepthSeqAppend(g, a + b, c);
  }

  /** The listing names each key once. */
  lemma ExampleListing()
    ensures forall i, j :: 0 <= i < j < |TestKeys| ==> TestKeys[i] != TestKeys[j]
  {
  }

  /** Any map of the test's shape has 42 direct and indirect orbits. */
  lemma ExampleTotal(g: Orbits)
    requires TestShape(g)
    ensures TotalOrbits(g) == Some(42)
  {
    ExampleSum(g);
    ExampleListing();
    SumDepthSeqIsTotal(g, TestKeys, g.Keys);
  }

  /** The test map has 42 direct and indirect orbits. */
  lemma ExampleCountOrbits()
    ensures TotalOrbits(TestGraph) == Some(42)
  {
    ExampleTotal(TestGraph);
  }

  lemma ExampleParentMapHalf()
    ensures ParentMap(TestPairs[..6]) == map["B" := "COM", "C" := "B", "D" := "C", "E" := "D", "F" := "E", "G" := "B"]
  {
    assert ParentMap(TestPairs[..1]) == map["B" := "COM"];
    assert TestPairs[..2][..1] == TestPairs[..1];
    assert ParentMap(TestPairs[..2]) == map["B" := "COM", "C" := "B"];
    assert TestPairs[..3][..2] == TestPairs[..2];
    assert ParentMap(TestPairs[..3]) == map["B" := "COM", "C" := "B", "D" := "C"];
    assert TestPairs[..4][..3] == TestPairs[..3];
    assert ParentMap(TestPairs[..4]) == map["B" := "COM", "C" := "B", "D" := "C", "E" := "D"];
    assert TestPairs[..5][..4] == TestPairs[..4];
    assert ParentMap(TestPairs[..5]) == map["B" := "COM", "C" := "B", "D" := "C", "E" := "D", "F" := "E"];
    assert TestPairs[..6][..5] == TestPairs[..5];
    assert ParentMap(TestPairs[..6]) == map["B" := "COM", "C" := "B", "D" := "C", "E" := "D", "F" := "E", "G" := "B"];
  }

  /** The test map's pairs build the expected map. */
  lemma ExampleBuildGraph()
    ensures BuildGraph(TestPairs) == TestGraph
  {
    ExampleParentMapHalf();
    assert TestPairs[..7][..6] == TestPairs[..6];
    assert ParentMap(TestPairs[..7]) == map["B" := "COM", "C" := "B", "D" := "C", "E" := "D", "F" := "E", "G" := "B", "H" := "G"];
    assert TestPairs[..8][..7] == TestPairs[..7];
    assert ParentMap(TestPairs[..8]) == map["B" := "COM", "C" := "B", "D" := "C", "E" := "D", "F" := "E", "G" := "B", "H" := "G", "I" := "D"];
    assert TestPairs[..9][..8] == TestPairs[..8];
    assert ParentMap(TestPairs[..9]) == map["B" := "COM", "C" := "B", "D" := "C", "E" := "D", "F" := "E", "G" := "B", "H" := "G", "I" := "D", "J" := "E"];
    assert TestPairs[..10][..9] == TestPairs[..9];
    assert ParentMap(TestPairs[..10]) == map["B" := "COM", "C" := "B", "D" := "C", "E" := "D", "F" := "E", "G" := "B", "H" := "G", "I" := "D", "J" := "E", "K" := "J"];
    assert TestPairs[..11][..10] == TestPairs[..10];
    assert ParentMap(TestPairs[..11]) == map["B" := "COM", "C" := "B", "D" := "C", "E" := "D", "F" := "E", "G" := "B", "H" := "G", "I" := "D", "J" := "E", "K" := "J", "L" := "K"];
    assert TestPairs[..11] == TestPairs;
  }
}
