/** Counting passwords (day04/src/main.rs): six-digit buckets, the two
    "adjacency" rules (the part-1 and part-2 features of the source), and the
    enumerator that walks from a lower bucket to an upper one by backtracking
    over trailing nines. Digits are `nat` (the source's `u8`). */
module Day04 {

  /** Which of the two compile-time variants of `adjacency_rule` is used. */
  datatype Rule = Part1 | Part2

  predicate IsBucket(b: seq<nat>) {
    |b| == 6
  }

  /** Every entry is a decimal digit. */
  predicate Digits(b: seq<nat>) {
    forall k :: 0 <= k < |b| ==> b[k] <= 9
  }

  // ===========================================================================
  // The adjacency rules

  /** Two adjacent digits are equal. */
  predicate HasPair(b: seq<nat>)
    requires IsBucket(b)
  {
    exists i :: 0 <= i < 5 && b[i] == b[i + 1]
  }

  /** Digits `i` and `i + 1` are equal and form a whole run: the digits on
      either side (where there are any) differ from them. */
  predicate ExactPairAt(b: seq<nat>, i: nat)
    requires IsBucket(b) && i < 5
  {
    && b[i] == b[i + 1]
    && (i == 0 || b[i - 1] != b[i])
    && (i == 4 || b[i + 1] != b[i + 2])
  }

  /** Some maximal run of equal adjacent digits has length exactly two. */
  predicate HasExactPair(b: seq<nat>)
    requires IsBucket(b)
  {
    exists i :: 0 <= i < 5 && ExactPairAt(b, i)
  }

  /** `adjacency_rule`, part 1: scan the five adjacent pairs for an equal one. */
  method AdjacencyRule1(b: seq<nat>) returns (r: bool)
    requires IsBucket(b)
    ensures r <==> HasPair(b)
  {
    for i := 0 to 5
      invariant forall j :: 0 <= j < i ==> b[j] != b[j + 1]
    {
      if b[i] == b[i + 1] {
        return true;
      }
    }
    return false;
  }

  /** The number of equal adjacent pairs in the run that ends just before
      digit `i`: the counter of the part-2 rule on entry to pair `i`. */
  function RunBefore(b: seq<nat>, i: nat): nat
    requires IsBucket(b) && i <= 5
  {
    if i == 0 || b[i - 1] != b[i] then 0 else RunBefore(b, i - 1) + 1
  }

  /** `adjacency_rule`, part 2: count the equal pairs of the current run, and
      succeed when a run of exactly one pair is closed by an unequal pair or
      by the end of the bucket. */
  method AdjacencyRule2(b: seq<nat>) returns (r: bool)
    requires IsBucket(b)
    ensures r <==> HasExactPair(b)
  {
    var c := 0;
    for i := 0 to 5
      invariant c == RunBefore(b, i)
      invariant forall j :: 0 <= j && j + 1 < i ==> !ExactPairAt(b, j)
    {
      if b[i] == b[i + 1] {
        c := c + 1;
      } else if c == 1 {
        assert ExactPairAt(b, i - 1);
        return true;
      } else {
        c := 0;
      }
    }
    if c == 1 {
      assert ExactPairAt(b, 4);
    }
    return c == 1;
  }

  /** The rule the enumerator applies, as a predicate. */
  predicate Satisfies(rule: Rule, b: seq<nat>)
    requires IsBucket(b)
  {
    match rule
    case Part1 => HasPair(b)
    case Part2 => HasExactPair(b)
  }

  /** An exact pair is a pair, so part 2 only ever rejects more. */
  lemma Part2ImpliesPart1(b: seq<nat>)
    requires IsBucket(b)
    ensures HasExactPair(b) ==> HasPair(b)
  {
  }

  // ===========================================================================
  // Lexicographic order and the enumerator

  /** `a < b` for Rust arrays: lexicographic order. */
  predicate Less(a: seq<nat>, b: seq<nat>)
    requires |a| == |b|
  {
    |a| > 0 && (a[0] < b[0] || (a[0] == b[0] && Less(a[1..], b[1..])))
  }

  /** `a < b` exactly when they agree on a prefix and then `a` is smaller. */
  lemma {:induction false} LessIffFirstDifference(a: seq<nat>, b: seq<nat>)
    requires |a| == |b|
    ensures Less(a, b) <==> exists k :: 0 <= k < |a| && a[..k] == b[..k] && a[k] < b[k]
  {
    if |a| > 0 {
      LessIffFirstDifference(a[1..], b[1..]);
      if Less(a, b) && a[0] == b[0] {
        var k :| 0 <= k < |a| - 1 && a[1..][..k] == b[1..][..k] && a[1..][k] < b[1..][k];
        assert a[..k + 1] == [a[0]] + a[1..][..k];
        assert b[..k + 1] == [b[0]] + b[1..][..k];
      }
      if exists k :: 0 <= k < |a| && a[..k] == b[..k] && a[k] < b[k] {
        var k :| 0 <= k < |a| && a[..k] == b[..k] && a[k] < b[k];
        if k > 0 {
          assert a[0] == a[..k][0] && b[0] == b[..k][0];
          assert a[1..][..k - 1] == a[..k][1..] && b[1..][..k - 1] == b[..k][1..];
        }
      }
    }
  }

  /** Where the backtracking `while` stops: the last position that does not
      hold a 9, or 0 when there is none. */
  function BacktrackIndex(b: seq<nat>, i: nat): (k: nat)
    requires IsBucket(b) && i <= 5
    ensures k <= i && (k == 0 || b[k] != 9)
    ensures forall j :: k < j <= i ==> b[j] == 9
  {
    if i > 0 && b[i] == 9 then BacktrackIndex(b, i - 1) else i
  }

  /** One backtrack-and-rebuild step: the digit at the backtrack index goes
      up by one, and every position from there to the end takes its value.
      Everything before the backtrack index is kept. */
  function Next(b: seq<nat>): (n: seq<nat>)
    requires IsBucket(b)
    ensures IsBucket(n)
    ensures var k := BacktrackIndex(b, 5);
      && n[..k] == b[..k]
      && forall j :: k <= j < 6 ==> n[j] == b[k] + 1
  {
    var k := BacktrackIndex(b, 5);
    b[..k] + seq(6 - k, _ => b[k] + 1)
  }

  /** Each step moves strictly up in lexicographic order. */
  lemma NextIsGreater(b: seq<nat>)
    requires IsBucket(b)
    ensures Less(b, Next(b))
  {
    var k := BacktrackIndex(b, 5);
    LessIffFirstDifference(b, Next(b));
    assert b[..k] == Next(b)[..k] && b[k] < Next(b)[k];
  }

  /** The enumerator never leaves the digits, except for the step past
      `999999`, which lands on all tens. */
  lemma NextStaysDigits(b: seq<nat>)
    requires IsBucket(b) && Digits(b)
    ensures Digits(Next(b)) || Next(b) == [10, 10, 10, 10, 10, 10]
  {
    var k := BacktrackIndex(b, 5);
    if b[k] == 9 {
      assert Next(b) == [10, 10, 10, 10, 10, 10];
    }
  }

  /** The number the enumerator counts from `b` up to (but not including)
      `max`: one for each bucket it visits that satisfies the rule. */
  function CountFrom(rule: Rule, b: seq<nat>, max: seq<nat>): (r: nat)
    requires IsBucket(b) && IsBucket(max) && Digits(max)
    requires Digits(b) || b == [10, 10, 10, 10, 10, 10]
    ensures !Less(b, max) ==> r == 0
    ensures Less(b, max) && Satisfies(rule, b) ==> r >= 1
    decreases 10 - b[0], 10 - b[1], 10 - b[2], 10 - b[3], 10 - b[4], 10 - b[5]
  {
    if !Less(b, max) then 0
    else
      NextStaysDigits(b);
      var k := BacktrackIndex(b, 5);
      assert forall j :: 0 <= j < k ==> Next(b)[j] == Next(b)[..k][j];
      (if Satisfies(rule, b) then 1 else 0) + CountFrom(rule, Next(b), max)
  }

  /** The all-tens bucket lies above every bucket of digits. */
  lemma TensAboveDigits(max: seq<nat>)
    requires IsBucket(max) && Digits(max)
    ensures !Less([10, 10, 10, 10, 10, 10], max)
  {
  }

  /** The backtracking `while`: step left over trailing nines. */
  method Backtrack(b: seq<nat>) returns (i: nat)
    requires IsBucket(b)
    ensures i == BacktrackIndex(b, 5)
  {
    i := 5;
    while i > 0 && b[i] == 9
      invariant 0 <= i <= 5
      invariant BacktrackIndex(b, 5) == BacktrackIndex(b, i)
    {
      i := i - 1;
    }
  }

  /** The rebuilding `while`: every position from the backtrack index on
      takes the digit there plus one, which is one step of `Next`. */
  method Rebuild(b: seq<nat>, i: nat) returns (nb: seq<nat>)
    requires IsBucket(b) && i == BacktrackIndex(b, 5)
    ensures nb == Next(b)
  {
    var x := b[i] + 1;
    nb := b;
    var j := i;
    while j < 6
      invariant i <= j <= 6 && |nb| == 6
      invariant nb[..i] == b[..i]
      invariant forall m :: i <= m < j ==> nb[m] == x
      invariant forall m :: j <= m < 6 ==> nb[m] == b[m]
    {
      nb := nb[j := x];
      j := j + 1;
    }
    assert nb == b[..i] + seq(6 - i, _ => x);
  }

  /** The rule the enumerator applies, computed by the matching scan. */
  method ApplyRule(rule: Rule, b: seq<nat>) returns (ok: bool)
    requires IsBucket(b)
    ensures ok == Satisfies(rule, b)
  {
    if rule == Part1 {
      ok := AdjacencyRule1(b);
    } else {
      ok := AdjacencyRule2(b);
    }
  }

  /** The step of `CountFrom`'s measure: a prefix is kept and the next
      position goes up by one. */
  lemma NextRaisesBacktrackDigit(b: seq<nat>)
    requires IsBucket(b)
    ensures var k := BacktrackIndex(b, 5);
      (forall j :: 0 <= j < k ==> Next(b)[j] == b[j]) && Next(b)[k] == b[k] + 1
  {
    var k := BacktrackIndex(b, 5);
    assert forall j :: 0 <= j < k ==> Next(b)[j] == Next(b)[..k][j];
  }

  /** One step of `CountFrom` below `max`: the bucket counts when it
      satisfies the rule, and the walk goes on from `Next(b)`, which is
      digits again or the all-tens bucket above `max`. */
  lemma CountFromStep(rule: Rule, b: seq<nat>, max: seq<nat>)
    requires IsBucket(b) && IsBucket(max) && Digits(max) && Digits(b) && Less(b, max)
    ensures Digits(Next(b)) || (Next(b) == [10, 10, 10, 10, 10, 10] && !Less(Next(b), max))
    ensures CountFrom(rule, b, max) == (if Satisfies(rule, b) then 1 else 0) + CountFrom(rule, Next(b), max)
    ensures var k := BacktrackIndex(b, 5);
      (forall j :: 0 <= j < k ==> Next(b)[j] == b[j]) && Next(b)[k] == b[k] + 1
  {
    NextStaysDigits(b);
    TensAboveDigits(max);
    NextRaisesBacktrackDigit(b);
  }

  /** `count`: walk from `bucket` while it is below `max`, counting the
      buckets that satisfy the rule. (In the source the index `i` is 5 at
      the head of every iteration, so its `if i == 5` always holds.) */
  method Count(rule: Rule, bucket: seq<nat>, max: seq<nat>) returns (result: nat)
    requires IsBucket(bucket) && IsBucket(max) && Digits(bucket) && Digits(max)
    ensures result == CountFrom(rule, bucket, max)
    ensures !Less(bucket, max) ==> result == 0
  {
    var b := bucket;
    result := 0;
    while Less(b, max)
      invariant IsBucket(b) && (Digits(b) || (b == [10, 10, 10, 10, 10, 10] && !Less(b, max)))
      invariant result + CountFrom(rule, b, max) == CountFrom(rule, bucket, max)
      decreases 10 - b[0], 10 - b[1], 10 - b[2], 10 - b[3], 10 - b[4], 10 - b[5]
    {
      var ok := ApplyRule(rule, b);
      if ok {
        result := result + 1;
      }
      var i := Backtrack(b);
      var nb := Rebuild(b, i);
      CountFromStep(rule, b, max);
      b := nb;
    }
  }

  // ===========================================================================
  // Examples

  /** The examples of the puzzle for the part-1 rule. */
  lemma ExamplePairs()
    ensures HasPair([1, 1, 1, 1, 1, 1]) && HasPair([2, 2, 3, 4, 5, 0]) && !HasPair([1, 2, 3, 7, 8, 9])
  {
    assert [1, 1, 1, 1, 1, 1][0] == [1, 1, 1, 1, 1, 1][1];
    assert [2, 2, 3, 4, 5, 0][0] == [2, 2, 3, 4, 5, 0][1];
  }

  /** The examples of the puzzle for the part-2 rule: a run of three or more
      does not count, but a separate exact pair does. */
  lemma ExampleExactPairs()
    ensures HasExactPair([1, 1, 2, 2, 3, 3]) && !HasExactPair([1, 2, 3, 4, 4, 4]) && HasExactPair([1, 1, 1, 1, 2, 2])
  {
    assert ExactPairAt([1, 1, 2, 2, 3, 3], 0);
    assert ExactPairAt([1, 1, 1, 1, 2, 2], 4);
    assert forall i :: 0 <= i < 5 ==> !ExactPairAt([1, 2, 3, 4, 4, 4], i);
  }

  /** From `111111` up to `111113` the enumerator visits `111111` and
      `111112`: both have a pair, neither an exact pair. */
  lemma ExampleCount()
    ensures CountFrom(Part1, [1, 1, 1, 1, 1, 1], [1, 1, 1, 1, 1, 3]) == 2
    ensures CountFrom(Part2, [1, 1, 1, 1, 1, 1], [1, 1, 1, 1, 1, 3]) == 0
  {
    assert Next([1, 1, 1, 1, 1, 1]) == [1, 1, 1, 1, 1, 2];
    assert Next([1, 1, 1, 1, 1, 2]) == [1, 1, 1, 1, 1, 3];
  }
}
