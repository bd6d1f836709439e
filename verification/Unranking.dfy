/**
 Unranking (internal/formula/modes.go, GenerateByIndex and its three helpers).

 Unrank(mode, n, k, idx) says which selection an index denotes. What is promised of it is
 OrderIsomorphism below: for every mode it maps the indices [0, Total) one-to-one, onto and in
 lexicographic order to the selections of that mode. The methods follow the Go loops and are
 proved to compute it, or to fail exactly when the index is out of range.
 */
module Unranking {
  import opened Results
  import opened Integers
  import opened Sequences
  import opened Counting

  datatype Error = IndexOutOfRange | InvalidSelection | UnsupportedMode

  // ---------- what a selection is ----------

  predicate IsCombination(start: nat, n: nat, k: nat, s: seq<int>)
  {
    && |s| == k
    && (forall i :: 0 <= i < k ==> start <= s[i] < n)
    && (forall i, j :: 0 <= i < j < k ==> s[i] < s[j])
  }

  predicate IsArrangement(available: seq<int>, k: nat, s: seq<int>)
  {
    && |s| == k
    && (forall i :: 0 <= i < k ==> s[i] in available)
    && (forall i, j :: 0 <= i < j < k ==> s[i] != s[j])
  }

  predicate IsTuple(n: nat, k: nat, s: seq<int>)
  {
    && |s| == k
    && (forall i :: 0 <= i < k ==> 0 <= s[i] < n)
  }

  function Identity(n: nat): (s: seq<int>)
    ensures |s| == n && forall i :: 0 <= i < n ==> s[i] == i
  {
    seq(n, i => i)
  }

  predicate IsSelection(mode: Mode, n: nat, k: nat, s: seq<int>)
  {
    match mode
    case Combination => IsCombination(0, n, k, s)
    case Permutation => IsArrangement(Identity(n), k, s)
    case WithReplacement => IsTuple(n, k, s)
    case UnknownMode(_) => false
  }

  // ---------- which selection an index denotes ----------

  function Without(s: seq<int>, i: nat): (r: seq<int>)
    requires i < |s|
    ensures |r| == |s| - 1
  {
    s[..i] + s[i + 1..]
  }

  function UnrankCombination(start: nat, n: nat, k: nat, idx: nat): seq<int>
    requires start <= n && idx < Binomial(n - start, k)
    decreases n - start
  {
    if k == 0 then []
    else if start == n then assert false; []
    else
      var block := Binomial(n - start - 1, k - 1);
      if idx < block then [start] + UnrankCombination(start + 1, n, k - 1, idx)
      else UnrankCombination(start + 1, n, k, idx - block)
  }

  function UnrankPermutation(available: seq<int>, k: nat, idx: nat): seq<int>
    requires idx < FallingFactorial(|available|, k)
    decreases k
  {
    if k == 0 then []
    else
      var block := FallingFactorial(|available| - 1, k - 1);
      BlockChoice(|available|, block, idx);
      var choice := idx / block;
      [available[choice]] + UnrankPermutation(Without(available, choice), k - 1, idx % block)
  }

  function UnrankReplacement(n: nat, k: nat, idx: nat): seq<int>
    requires idx < Power(n, k)
    decreases k
  {
    if k == 0 then []
    else
      var block := Power(n, k - 1);
      BlockChoice(n, block, idx);
      [idx / block] + UnrankReplacement(n, k - 1, idx % block)
  }

  function Unrank(mode: Mode, n: nat, k: nat, idx: nat): seq<int>
    requires idx < Total(mode, n, k)
  {
    match mode
    case Combination => UnrankCombination(0, n, k, idx)
    case Permutation => UnrankPermutation(Identity(n), k, idx)
    case WithReplacement => UnrankReplacement(n, k, idx)
    case UnknownMode(_) => assert false; []
  }

  /** An index below n blocks of a given size falls in one of the n blocks. */
  lemma BlockChoice(n: nat, block: nat, idx: nat)
    requires idx < n * block
    ensures block > 0 && idx / block < n && idx % block < block
    ensures idx == (idx / block) * block + idx % block
  {
    var q := idx / block;
    if q >= n { MultiplyMonotone(n, q, block); }
  }

  lemma BlockEnd(n: nat, block: nat, choice: nat)
    requires choice < n
    ensures 0 <= choice * block && choice * block + block <= n * block
  {
    MultiplyMonotone(choice + 1, n, block);
    Distribute(block, choice, 1);
  }

  /** Two indices in the same or in different blocks: the block number decides first. */
  lemma BlockOrder(block: nat, c: nat, r: nat, d: nat, q: nat)
    requires r < block && q < block
    requires c * block + r < d * block + q
    ensures c < d || (c == d && r < q)
  {
    if d < c { MultiplyMonotone(d + 1, c, block); }
  }

  lemma SameBlock(block: nat, c: nat, r: nat, d: nat, q: nat)
    requires r < block && q < block
    requires c * block + r == d * block + q
    ensures c == d && r == q
  {
    if c < d { MultiplyMonotone(c + 1, d, block); }
    if d < c { MultiplyMonotone(d + 1, c, block); }
  }

  lemma BlockOf(block: nat, choice: nat, rest: nat)
    requires rest < block
    ensures (choice * block + rest) / block == choice
    ensures (choice * block + rest) % block == rest
  {
    var idx := choice * block + rest;
    assert idx == (idx / block) * block + idx % block;
    SameBlock(block, idx / block, idx % block, choice, rest);
  }

  lemma LexLessCons(x: int, a: seq<int>, b: seq<int>)
    requires LexLess(a, b)
    ensures LexLess([x] + a, [x] + b)
  {
    assert ([x] + a)[1..] == a && ([x] + b)[1..] == b;
  }

  // ---------- combinations ----------

  lemma {:induction false} CombinationSound(start: nat, n: nat, k: nat, idx: nat)
    requires start <= n && idx < Binomial(n - start, k)
    ensures IsCombination(start, n, k, UnrankCombination(start, n, k, idx))
    decreases n - start
  {
    if k > 0 && start < n {
      var block := Binomial(n - start - 1, k - 1);
      if idx < block {
        CombinationSound(start + 1, n, k - 1, idx);
      } else {
        CombinationSound(start + 1, n, k, idx - block);
      }
    }
  }

  lemma {:induction false} CombinationOrdered(start: nat, n: nat, k: nat, i: nat, j: nat)
    requires start <= n && i < j < Binomial(n - start, k)
    ensures LexLess(UnrankCombination(start, n, k, i), UnrankCombination(start, n, k, j))
    decreases n - start
  {
    if k > 0 && start < n {
      var block := Binomial(n - start - 1, k - 1);
      if j < block {
        CombinationOrdered(start + 1, n, k - 1, i, j);
        assert UnrankCombination(start, n, k, i)[1..] == UnrankCombination(start + 1, n, k - 1, i);
        assert UnrankCombination(start, n, k, j)[1..] == UnrankCombination(start + 1, n, k - 1, j);
      } else if i >= block {
        CombinationOrdered(start + 1, n, k, i - block, j - block);
      } else {
        CombinationSound(start + 1, n, k, j - block);
      }
    }
  }

  lemma {:induction false} CombinationOnto(start: nat, n: nat, s: seq<int>) returns (idx: nat)
    requires start <= n && IsCombination(start, n, |s|, s)
    ensures idx < Binomial(n - start, |s|) && UnrankCombination(start, n, |s|, idx) == s
    decreases n - start
  {
    if s == [] {
      idx := 0;
    } else if s[0] == start {
      idx := CombinationOnto(start + 1, n, s[1..]);
      assert s == [s[0]] + s[1..];
    } else {
      idx := CombinationOnto(start + 1, n, s);
      idx := idx + Binomial(n - start - 1, |s| - 1);
    }
  }

  // ---------- permutations ----------

  lemma WithoutMembers(s: seq<int>, i: nat)
    requires i < |s| && StrictlyIncreasing(s)
    ensures StrictlyIncreasing(Without(s, i))
    ensures forall x :: x in Without(s, i) <==> x in s && x != s[i]
  {
    var w := Without(s, i);
    forall x | x in s && x != s[i] ensures x in w {
      var m :| 0 <= m < |s| && s[m] == x;
      if m < i { assert w[m] == x; } else { assert w[m - 1] == x; }
    }
  }

  lemma {:induction false} PermutationSound(available: seq<int>, k: nat, idx: nat)
    requires StrictlyIncreasing(available) && idx < FallingFactorial(|available|, k)
    ensures IsArrangement(available, k, UnrankPermutation(available, k, idx))
    decreases k
  {
    if k > 0 {
      var choice, rest := PermutationHead(available, k, idx);
      WithoutMembers(available, choice);
      PermutationSound(Without(available, choice), k - 1, rest);
    }
  }

  lemma PermutationHead(available: seq<int>, k: nat, idx: nat) returns (choice: nat, rest: nat)
    requires k > 0 && idx < FallingFactorial(|available|, k)
    ensures choice < |available| && rest < FallingFactorial(|available| - 1, k - 1)
    ensures idx == choice * FallingFactorial(|available| - 1, k - 1) + rest
    ensures UnrankPermutation(available, k, idx)
         == [available[choice]] + UnrankPermutation(Without(available, choice), k - 1, rest)
  {
    var block := FallingFactorial(|available| - 1, k - 1);
    BlockChoice(|available|, block, idx);
    choice, rest := idx / block, idx % block;
  }

  lemma {:induction false} PermutationOrdered(available: seq<int>, k: nat, i: nat, j: nat)
    requires StrictlyIncreasing(available) && i < j < FallingFactorial(|available|, k)
    ensures LexLess(UnrankPermutation(available, k, i), UnrankPermutation(available, k, j))
    decreases k
  {
    if k > 0 {
      var c, r := PermutationHead(available, k, i);
      var d, q := PermutationHead(available, k, j);
      BlockOrder(FallingFactorial(|available| - 1, k - 1), c, r, d, q);
      if c == d {
        WithoutMembers(available, c);
        PermutationOrdered(Without(available, c), k - 1, r, q);
        LexLessCons(available[c], UnrankPermutation(Without(available, c), k - 1, r),
                    UnrankPermutation(Without(available, c), k - 1, q));
      }
    }
  }

  function IndexOf(s: seq<int>, x: int): (i: nat)
    requires x in s
    ensures i < |s| && s[i] == x
  {
    if s[0] == x then 0 else 1 + IndexOf(s[1..], x)
  }

  /** The index made of a block number and a position inside the block denotes that block's head. */
  lemma PermutationAt(available: seq<int>, k: nat, choice: nat, rest: nat) returns (idx: nat)
    requires k > 0 && choice < |available| && rest < FallingFactorial(|available| - 1, k - 1)
    ensures idx < FallingFactorial(|available|, k)
    ensures UnrankPermutation(available, k, idx)
         == [available[choice]] + UnrankPermutation(Without(available, choice), k - 1, rest)
  {
    var block := FallingFactorial(|available| - 1, k - 1);
    BlockEnd(|available|, block, choice);
    idx := choice * block + rest;
    var c, r := PermutationHead(available, k, idx);
    SameBlock(block, c, r, choice, rest);
  }

  lemma {:induction false} PermutationOnto(available: seq<int>, s: seq<int>) returns (idx: nat)
    requires StrictlyIncreasing(available) && IsArrangement(available, |s|, s)
    ensures idx < FallingFactorial(|available|, |s|) && UnrankPermutation(available, |s|, idx) == s
    decreases |s|
  {
    if s == [] {
      idx := 0;
    } else {
      var choice := IndexOf(available, s[0]);
      WithoutMembers(available, choice);
      var rest := PermutationOnto(Without(available, choice), s[1..]);
      idx := PermutationAt(available, |s|, choice, rest);
      assert s == [s[0]] + s[1..];
    }
  }

  // ---------- tuples with replacement ----------

  /** The number whose base-n digits, most significant first, are s. */
  function Value(n: nat, s: seq<int>): int
  {
    if s == [] then 0 else s[0] * Power(n, |s| - 1) + Value(n, s[1..])
  }

  lemma {:induction false} ValueBound(n: nat, s: seq<int>)
    requires IsTuple(n, |s|, s)
    ensures 0 <= Value(n, s) < Power(n, |s|)
  {
    if s != [] {
      ValueBound(n, s[1..]);
      BlockEnd(n, Power(n, |s| - 1), s[0]);
    }
  }

  lemma ReplacementHead(n: nat, k: nat, idx: nat) returns (digit: nat, rest: nat)
    requires k > 0 && idx < Power(n, k)
    ensures digit < n && rest < Power(n, k - 1) && idx == digit * Power(n, k - 1) + rest
    ensures UnrankReplacement(n, k, idx) == [digit] + UnrankReplacement(n, k - 1, rest)
  {
    BlockChoice(n, Power(n, k - 1), idx);
    digit, rest := idx / Power(n, k - 1), idx % Power(n, k - 1);
  }

  lemma {:induction false} ReplacementSound(n: nat, k: nat, idx: nat)
    requires idx < Power(n, k)
    ensures IsTuple(n, k, UnrankReplacement(n, k, idx))
    ensures Value(n, UnrankReplacement(n, k, idx)) == idx
    decreases k
  {
    if k > 0 {
      var digit, rest := ReplacementHead(n, k, idx);
      ReplacementSound(n, k - 1, rest);
      assert UnrankReplacement(n, k, idx)[1..] == UnrankReplacement(n, k - 1, rest);
    }
  }

  lemma {:induction false} ReplacementOnto(n: nat, s: seq<int>)
    requires IsTuple(n, |s|, s)
    ensures 0 <= Value(n, s) < Power(n, |s|)
    ensures UnrankReplacement(n, |s|, Value(n, s)) == s
  {
    ValueBound(n, s);
    if s != [] {
      var block := Power(n, |s| - 1);
      ValueBound(n, s[1..]);
      BlockOf(block, s[0], Value(n, s[1..]));
      ReplacementOnto(n, s[1..]);
      assert s == [s[0]] + s[1..];
    }
  }

  lemma {:induction false} ReplacementOrdered(n: nat, k: nat, i: nat, j: nat)
    requires i < j < Power(n, k)
    ensures LexLess(UnrankReplacement(n, k, i), UnrankReplacement(n, k, j))
    decreases k
  {
    if k > 0 {
      var c, r := ReplacementHead(n, k, i);
      var d, q := ReplacementHead(n, k, j);
      BlockOrder(Power(n, k - 1), c, r, d, q);
      if c == d {
        ReplacementOrdered(n, k - 1, r, q);
        LexLessCons(c, UnrankReplacement(n, k - 1, r), UnrankReplacement(n, k - 1, q));
      }
    }
  }

  // ---------- the main result ----------

  lemma SelectionHasIndex(mode: Mode, n: nat, k: nat, s: seq<int>) returns (idx: nat)
    requires IsSelection(mode, n, k, s)
    ensures idx < Total(mode, n, k) && Unrank(mode, n, k, idx) == s
  {
    match mode
    case Combination =>
      idx := CombinationOnto(0, n, s);
    case Permutation =>
      idx := PermutationOnto(Identity(n), s);
    case WithReplacement =>
      ReplacementOnto(n, s);
      idx := Value(n, s);
  }

  lemma IndexHasSelection(mode: Mode, n: nat, k: nat, idx: nat)
    requires idx < Total(mode, n, k)
    ensures IsSelection(mode, n, k, Unrank(mode, n, k, idx))
  {
    match mode
    case Combination => CombinationSound(0, n, k, idx);
    case Permutation => PermutationSound(Identity(n), k, idx);
    case WithReplacement => ReplacementSound(n, k, idx);
    case UnknownMode(_) =>
  }

  lemma IndicesAreOrdered(mode: Mode, n: nat, k: nat, i: nat, j: nat)
    requires i < j < Total(mode, n, k)
    ensures LexLess(Unrank(mode, n, k, i), Unrank(mode, n, k, j))
  {
    match mode
    case Combination => CombinationOrdered(0, n, k, i, j);
    case Permutation => PermutationOrdered(Identity(n), k, i, j);
    case WithReplacement => ReplacementOrdered(n, k, i, j);
    case UnknownMode(_) =>
  }

  /**
   Unranking is an order isomorphism: the indices 0..Total-1 list every selection of the mode,
   each exactly once, in lexicographic order. In particular Total counts the selections.
   */
  lemma OrderIsomorphism(mode: Mode, n: nat, k: nat)
    ensures forall idx: nat | idx < Total(mode, n, k) :: IsSelection(mode, n, k, Unrank(mode, n, k, idx))
    ensures forall i: nat, j: nat | i < j < Total(mode, n, k) ::
              LexLess(Unrank(mode, n, k, i), Unrank(mode, n, k, j))
              && Unrank(mode, n, k, i) != Unrank(mode, n, k, j)
    ensures forall s | IsSelection(mode, n, k, s) ::
              exists idx: nat :: idx < Total(mode, n, k) && Unrank(mode, n, k, idx) == s
  {
    forall idx: nat | idx < Total(mode, n, k)
      ensures IsSelection(mode, n, k, Unrank(mode, n, k, idx))
    {
      IndexHasSelection(mode, n, k, idx);
    }
    forall i: nat, j: nat | i < j < Total(mode, n, k)
      ensures LexLess(Unrank(mode, n, k, i), Unrank(mode, n, k, j))
              && Unrank(mode, n, k, i) != Unrank(mode, n, k, j)
    {
      IndicesAreOrdered(mode, n, k, i, j);
      LexLessIrreflexive(Unrank(mode, n, k, i));
    }
    forall s | IsSelection(mode, n, k, s)
      ensures exists idx: nat :: idx < Total(mode, n, k) && Unrank(mode, n, k, idx) == s
    {
      var idx := SelectionHasIndex(mode, n, k, s);
    }
  }

  // ---------- the Go loops ----------

  method PermutationIndices(n: nat, k: nat, idx: nat) returns (r: Result<seq<int>, Error>)
    requires n <= MAX_INT
    ensures k > n ==> r == Err(InvalidSelection)
    ensures k <= n && k > 0 && idx >= FallingFactorial(n, k) ==> r == Err(IndexOutOfRange)
    ensures k == 0 ==> r == Ok([])
    ensures k <= n && idx < FallingFactorial(n, k) ==> r == Ok(UnrankPermutation(Identity(n), k, idx))
  {
    if k > n {
      return Err(InvalidSelection);
    }
    var available := Identity(n);
    var remaining: int := idx;
    var indices := [];
    var pos := 0;
    ghost var inRange := idx < FallingFactorial(n, k);
    while pos < k
      invariant 0 <= pos <= k && |available| == n - pos && |indices| == pos && remaining >= 0
      invariant pos == 0 ==> remaining == idx && available == Identity(n)
      invariant pos > 0 ==> inRange
      invariant inRange ==> remaining < FallingFactorial(|available|, k - pos)
      invariant inRange ==>
        indices + UnrankPermutation(available, k - pos, remaining) == UnrankPermutation(Identity(n), k, idx)
    {
      var block := Count(Permutation, n - pos - 1, k - pos - 1);
      PermutationStep(available, k - pos, remaining, indices);
      if block == 0 {
        assert false;
      }
      var choice := remaining / block;
      var offset := remaining % block;
      if !(choice <= MAX_INT) {
        return Err(IndexOutOfRange);
      }
      if choice < 0 || choice >= |available| {
        assert !inRange;
        return Err(IndexOutOfRange);
      }
      indices := indices + [available[choice]];
      available := Without(available, choice);
      remaining := offset;
      pos := pos + 1;
    }
    assert inRange ==> indices + [] == indices;
    return Ok(indices);
  }

  /** What one quotient and remainder of the permutation loop mean. */
  lemma PermutationStep(available: seq<int>, k: nat, idx: nat, before: seq<int>)
    requires 0 < k <= |available|
    ensures var block := FallingFactorial(|available| - 1, k - 1);
            && block > 0
            && 0 <= idx / block && 0 <= idx % block < block
            && (idx < FallingFactorial(|available|, k) <==> idx / block < |available|)
    ensures idx < FallingFactorial(|available|, k) ==>
              (var block := FallingFactorial(|available| - 1, k - 1);
               before + UnrankPermutation(available, k, idx)
               == (before + [available[idx / block]])
                  + UnrankPermutation(Without(available, idx / block), k - 1, idx % block))
  {
    var block := FallingFactorial(|available| - 1, k - 1);
    FallingPositive(|available| - 1, k - 1);
    DivMod(idx, block);
    if idx < FallingFactorial(|available|, k) {
      BlockChoice(|available|, block, idx);
    } else {
      QuotientBeyond(|available|, block, idx);
    }
  }

  lemma QuotientBeyond(n: nat, block: nat, idx: nat)
    requires block > 0 && idx >= n * block
    ensures idx / block >= n
  {
    DivMod(idx, block);
    var q := idx / block;
    if q < n { MultiplyMonotone(q + 1, n, block); }
  }

  /** What is left to do after choosing some elements: the rest of the index's combination, if it has one. */
  ghost predicate CombinationPending(n: nat, k: nat, idx: nat, chosen: seq<int>, start: nat, left: nat, remaining: nat)
    requires start <= n
  {
    && (idx < Binomial(n, k) <==> remaining < Binomial(n - start, left))
    && (idx < Binomial(n, k) ==>
          chosen + UnrankCombination(start, n, left, remaining) == UnrankCombination(0, n, k, idx))
  }

  lemma CombinationTake(n: nat, k: nat, idx: nat, chosen: seq<int>, start: nat, left: nat, remaining: nat)
    requires start < n && left > 0 && CombinationPending(n, k, idx, chosen, start, left, remaining)
    requires remaining < Binomial(n - start - 1, left - 1)
    ensures idx < Binomial(n, k)
    ensures CombinationPending(n, k, idx, chosen + [start], start + 1, left - 1, remaining)
  {
  }

  lemma CombinationSkip(n: nat, k: nat, idx: nat, chosen: seq<int>, start: nat, left: nat, remaining: nat)
    requires start < n && left > 0 && CombinationPending(n, k, idx, chosen, start, left, remaining)
    requires remaining >= Binomial(n - start - 1, left - 1)
    ensures CombinationPending(n, k, idx, chosen, start + 1, left, remaining - Binomial(n - start - 1, left - 1))
  {
  }

  lemma CombinationDone(n: nat, k: nat, idx: nat, chosen: seq<int>, start: nat, left: nat, remaining: nat)
    requires start <= n && CombinationPending(n, k, idx, chosen, start, left, remaining)
    ensures left == 0 && idx < Binomial(n, k) ==> chosen == UnrankCombination(0, n, k, idx)
    ensures start + left > n ==> idx >= Binomial(n, k)
  {
    if start + left > n { BinomialBeyond(n - start, left); }
  }

  method CombinationIndices(n: nat, k: nat, idx: nat) returns (r: Result<seq<int>, Error>)
    ensures k > n ==> r == Err(InvalidSelection)
    ensures k <= n && k > 0 && idx >= Binomial(n, k) ==> r == Err(IndexOutOfRange)
    ensures k == 0 ==> r == Ok([])
    ensures k <= n && idx < Binomial(n, k) ==> r == Ok(UnrankCombination(0, n, k, idx))
  {
    if k > n {
      return Err(InvalidSelection);
    }
    var remaining: nat := idx;
    var indices := [];
    var start: nat := 0;
    var pos := 0;
    while pos < k
      invariant 0 <= pos <= k && start <= n && |indices| == pos
      invariant pos > 0 ==> idx < Binomial(n, k)
      invariant CombinationPending(n, k, idx, indices, start, k - pos, remaining)
    {
      var found := false;
      var limit := n - (k - pos);
      var candidate := start;
      while candidate <= limit
        invariant start <= candidate <= n && (candidate <= limit + 1 || candidate == start) && !found
        invariant CombinationPending(n, k, idx, indices, candidate, k - pos, remaining)
      {
        var block := Count(Combination, n - candidate - 1, k - pos - 1);
        if remaining < block {
          CombinationTake(n, k, idx, indices, candidate, k - pos, remaining);
          indices := indices + [candidate];
          start := candidate + 1;
          found := true;
          break;
        }
        CombinationSkip(n, k, idx, indices, candidate, k - pos, remaining);
        remaining := remaining - block;
        candidate := candidate + 1;
      }
      if !found {
        CombinationDone(n, k, idx, indices, candidate, k - pos, remaining);
        return Err(IndexOutOfRange);
      }
      pos := pos + 1;
    }
    CombinationDone(n, k, idx, indices, start, k - pos, remaining);
    return Ok(indices);
  }

  /** The index whose low digits are s and whose higher part is above. */
  function Recompose(n: nat, above: nat, s: seq<int>): int
  {
    above * Power(n, |s|) + Value(n, s)
  }

  /** Fills the digits from the last position backwards, as the source does. */
  method ReplacementIndices(n: nat, k: nat, idx: nat) returns (r: Result<seq<int>, Error>, ghost above: nat)
    requires n <= MAX_INT
    ensures n == 0 && k > 0 ==> r == Err(InvalidSelection)
    ensures n > 0 || k == 0 ==> r.Ok? && IsTuple(n, k, r.value) && idx == Recompose(n, above, r.value)
    ensures idx < Power(n, k) ==> r == Ok(UnrankReplacement(n, k, idx))
  {
    if n == 0 && k > 0 {
      return Err(InvalidSelection), 0;
    }
    var remaining: int := idx;
    var indices := new int[k];
    var pos := k - 1;
    ghost var suffix := [];
    while pos >= 0
      invariant -1 <= pos < k && remaining >= 0
      invariant suffix == indices[pos + 1..]
      invariant IsTuple(n, k - 1 - pos, suffix)
      invariant idx == Recompose(n, remaining, suffix)
    {
      var quotient, remainder := remaining / n, remaining % n;
      DivMod(remaining, n);
      if !(remainder <= MAX_INT) {
        assert false;
      }
      ValueExtend(n, quotient, remainder, suffix);
      indices[pos] := remainder;
      suffix := [remainder] + suffix;
      remaining := quotient;
      pos := pos - 1;
    }
    assert pos + 1 == 0 && suffix == indices[..];
    LowestBlock(n, k, remaining, suffix);
    return Ok(indices[..]), remaining;
  }

  lemma LowestBlock(n: nat, k: nat, above: nat, s: seq<int>)
    requires IsTuple(n, k, s)
    ensures 0 <= Recompose(n, above, s) < Power(n, k) ==>
              UnrankReplacement(n, k, Recompose(n, above, s)) == s
  {
    ReplacementOnto(n, s);
    if above > 0 { MultiplyMonotone(1, above, Power(n, k)); }
  }

  lemma DivMod(a: nat, d: nat)
    requires d > 0
    ensures a == (a / d) * d + a % d && 0 <= a / d && 0 <= a % d < d
  {
  }

  lemma ValueExtend(n: nat, quotient: nat, remainder: nat, suffix: seq<int>)
    ensures Recompose(n, quotient * n + remainder, suffix) == Recompose(n, quotient, [remainder] + suffix)
  {
    var p := Power(n, |suffix|);
    assert ([remainder] + suffix)[1..] == suffix;
    Distribute(p, quotient * n, remainder);
    assert (quotient * n) * p == quotient * (n * p);
  }

  /** Picking the pool members at the given positions. */
  function Pick<T>(pool: seq<T>, indices: seq<int>): (picked: seq<T>)
    requires forall i :: 0 <= i < |indices| ==> 0 <= indices[i] < |pool|
    ensures |picked| == |indices| && forall i :: 0 <= i < |indices| ==> picked[i] == pool[indices[i]]
  {
    seq(|indices|, i requires 0 <= i < |indices| => pool[indices[i]])
  }

  lemma SelectionInPool(mode: Mode, n: nat, k: nat, s: seq<int>)
    requires IsSelection(mode, n, k, s)
    ensures forall i :: 0 <= i < |s| ==> 0 <= s[i] < n
  {
  }

  /** The selection an index denotes, taken from the pool. */
  function Candidate<T>(mode: Mode, pool: seq<T>, k: nat, idx: nat): seq<T>
    requires idx < Total(mode, |pool|, k)
  {
    IndexHasSelection(mode, |pool|, k, idx);
    SelectionInPool(mode, |pool|, k, Unrank(mode, |pool|, k, idx));
    Pick(pool, Unrank(mode, |pool|, k, idx))
  }

  /** A nil big.Int is None. */
  method GenerateByIndex<T>(mode: Mode, pool: seq<T>, k: int, idx: Option<int>)
    returns (r: Result<seq<T>, Error>)
    requires |pool| <= MAX_INT
    ensures r.Ok? <==> idx.Some? && k >= 0 && 0 <= idx.value < Total(mode, |pool|, k)
    ensures r.Ok? ==> r.value == Candidate(mode, pool, k, idx.value)
    ensures r.Err? ==> r.error == if idx.Some? && idx.value >= 0 && k < 0 then InvalidSelection else IndexOutOfRange
  {
    var n := |pool|;
    if idx.None? || idx.value < 0 {
      return Err(IndexOutOfRange);
    }
    if k < 0 {
      return Err(InvalidSelection);
    }
    var total := Count(mode, n, k);
    if total == 0 || idx.value >= total {
      return Err(IndexOutOfRange);
    }
    IndexHasSelection(mode, n, k, idx.value);
    SelectionInPool(mode, n, k, Unrank(mode, n, k, idx.value));
    var indices: Result<seq<int>, Error>;
    match mode {
      case Permutation =>
        if k > n { FallingBeyond(n, k); }
        indices := PermutationIndices(n, k, idx.value);
      case Combination =>
        if k > n { BinomialBeyond(n, k); }
        indices := CombinationIndices(n, k, idx.value);
      case WithReplacement =>
        ghost var above;
        indices, above := ReplacementIndices(n, k, idx.value);
      case UnknownMode(_) =>
        indices := Err(UnsupportedMode);
    }
    if indices.Err? {
      assert false;
    }
    var selection := [];
    for i := 0 to |indices.value|
      invariant selection == Pick(pool, indices.value)[..i]
    {
      selection := selection + [pool[indices.value[i]]];
    }
    return Ok(selection);
  }
}
