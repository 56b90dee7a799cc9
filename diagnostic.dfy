/** Day 3: binary diagnostic. Bit strings are counted column by column; the
    majority bits give the gamma factor, their complement the epsilon factor,
    and a filter by the majority bits gives the oxygen rating. */
module Diagnostic {
  import opened Wrappers

  type BitString = seq<char>

  function Pow2(n: nat): (r: nat)
    ensures r >= 1
  {
    if n == 0 then 1 else 2 * Pow2(n - 1)
  }

  /** Reference value of a string read as big-endian binary: a '1' at index i
      is worth 2^(len - 1 - i), every other character nothing. */
  function BigEndian(v: BitString): nat
  {
    if v == [] then 0
    else (if v[0] == '1' then Pow2(|v| - 1) else 0) + BigEndian(v[1..])
  }

  predicate IsBinary(v: BitString)
  {
    forall i :: 0 <= i < |v| ==> v[i] == '0' || v[i] == '1'
  }

  function Flip(c: char): char
    requires c == '0' || c == '1'
  {
    if c == '1' then '0' else '1'
  }

  /** The bitwise complement of a binary string. */
  function Complement(v: BitString): (r: BitString)
    requires IsBinary(v)
    ensures |r| == |v| && IsBinary(r)
  {
    seq(|v|, i requires 0 <= i < |v| => Flip(v[i]))
  }

  /** The number of strings with a '1' in column i. */
  function OnesAt(strings: seq<BitString>, i: nat): nat
    requires forall s :: s in strings ==> i < |s|
  {
    if strings == [] then 0
    else OnesAt(strings[..|strings| - 1], i) + (if strings[|strings| - 1][i] == '1' then 1 else 0)
  }

  /** True when s agrees with target on the first k columns. */
  predicate Agrees(s: BitString, target: BitString, k: nat)
    requires k <= |target|
  {
    k <= |s| && forall j :: 0 <= j < k ==> s[j] == target[j]
  }

  /** The strings, in their original order, that agree with target on the first k columns. */
  function Matching(strings: seq<BitString>, target: BitString, k: nat): seq<BitString>
    requires k <= |target|
  {
    if strings == [] then []
    else (if Agrees(strings[0], target, k) then [strings[0]] else [])
         + Matching(strings[1..], target, k)
  }

  /** One filter round: the strings whose column i holds bit b. */
  function KeepColumn(strings: seq<BitString>, i: nat, b: char): seq<BitString>
  {
    if strings == [] then []
    else (if i < |strings[0]| && strings[0][i] == b then [strings[0]] else []) + KeepColumn(strings[1..], i, b)
  }

  /** vec_to_u32: the loop adds 2^(len - 1 - i) for every '1' at index i. */
  method VecToNumber(input: BitString) returns (result: nat)
    ensures result == BigEndian(input)
  {
    result := 0;
    var n := |input|;
    for i := 0 to n
      invariant result + BigEndian(input[i..]) == BigEndian(input)
    {
      assert input[i..][1..] == input[i + 1..];
      if input[i] == '1' {
        result := result + Pow2(n - i - 1);
      }
    }
  }

  /** bitwise_not: pushes the flipped character; any character other than
      '0' and '1' is a panic, hence the precondition. */
  method BitwiseNot(input: BitString) returns (output: BitString)
    requires IsBinary(input)
    ensures output == Complement(input)
  {
    output := [];
    for i := 0 to |input|
      invariant output == Complement(input[..i])
    {
      output := output + [if input[i] == '1' then '0' else '1'];
    }
    assert input[..|input|] == input;
  }

  /** The per-column counter: every string is scanned over the first
      bitLength columns (a shorter string is an index panic). */
  method CountOnes(strings: seq<BitString>, bitLength: nat) returns (counter: seq<nat>)
    requires forall s :: s in strings ==> bitLength <= |s|
    ensures |counter| == bitLength
    ensures forall i :: 0 <= i < bitLength ==> counter[i] == OnesAt(strings, i)
  {
    counter := seq(bitLength, _ => 0);
    for k := 0 to |strings|
      invariant |counter| == bitLength
      invariant forall i :: 0 <= i < bitLength ==> counter[i] == OnesAt(strings[..k], i)
    {
      assert strings[..k + 1][..k] == strings[..k];
      ghost var before := counter;
      for i := 0 to bitLength
        invariant |counter| == bitLength
        invariant forall j :: 0 <= j < i ==> counter[j] == OnesAt(strings[..k + 1], j)
        invariant forall j :: i <= j < bitLength ==> counter[j] == before[j]
      {
        if strings[k][i] == '1' {
          counter := counter[i := counter[i] + 1];
        }
      }
    }
    assert strings[..|strings|] == strings;
  }

  /** The target bits: '1' exactly where the column count exceeds half the
      number of strings under integer division, i.e. a strict majority. */
  function TargetBits(counter: seq<nat>, total: nat): (r: BitString)
    ensures |r| == |counter| && IsBinary(r)
    ensures forall i :: 0 <= i < |r| ==> (r[i] == '1' <==> 2 * counter[i] > total)
  {
    seq(|counter|, i requires 0 <= i < |counter| => if counter[i] > total / 2 then '1' else '0')
  }

  /** The oxygen filter: each round keeps the candidates whose column i holds
      the target bit, stopping early once a single candidate remains. The
      target bits are fixed beforehand and are not recomputed per round. */
  method OxygenFilter(strings: seq<BitString>, target: BitString, bitLength: nat)
    returns (candidates: seq<BitString>, ghost rounds: nat)
    requires bitLength <= |target| && forall s :: s in strings ==> bitLength <= |s|
    ensures rounds <= bitLength && candidates == Matching(strings, target, rounds)
    ensures bitLength > 0 ==> rounds >= 1
    ensures rounds == bitLength || |candidates| == 1
    ensures forall j :: 1 <= j < rounds ==> |Matching(strings, target, j)| != 1
    ensures |candidates| == 1 || candidates == Matching(strings, target, bitLength)
  {
    candidates := strings;
    MatchingNone(strings, target);
    rounds := 0;
    for i := 0 to bitLength
      invariant rounds == i
      invariant candidates == Matching(strings, target, i)
      invariant forall j :: 1 <= j <= i ==> |Matching(strings, target, j)| != 1
    {
      MatchingStep(strings, target, i);
      candidates := KeepColumn(candidates, i, target[i]);
      rounds := i + 1;
      if |candidates| == 1 {
        return;
      }
    }
  }

  /** The majority bits of the whole input: '1' where a strict majority of
      the strings have a '1' in that column. */
  function MajorityBits(strings: seq<BitString>, bitLength: nat): (r: BitString)
    requires forall s :: s in strings ==> bitLength <= |s|
    ensures |r| == bitLength && IsBinary(r)
  {
    seq(bitLength, i requires 0 <= i < bitLength => if 2 * OnesAt(strings, i) > |strings| then '1' else '0')
  }

  /** The program's main computation: the gamma and epsilon factors and the
      oxygen rating, with the dimensions taken from the first string; `None`
      where indexing the first remaining candidate would panic. */
  method Diagnose(strings: seq<BitString>) returns (gamma: nat, epsilon: nat, oxygen: Option<nat>, ghost rounds: nat)
    requires |strings| > 0 && forall s :: s in strings ==> |strings[0]| <= |s|
    ensures gamma == BigEndian(MajorityBits(strings, |strings[0]|))
    ensures epsilon == BigEndian(Complement(MajorityBits(strings, |strings[0]|)))
    ensures gamma + epsilon == Pow2(|strings[0]|) - 1
    ensures rounds <= |strings[0]|
    ensures |strings[0]| > 0 ==> rounds >= 1
    ensures var left := Matching(strings, MajorityBits(strings, |strings[0]|), rounds);
            && (rounds == |strings[0]| || |left| == 1)
            && oxygen == if left == [] then None else Some(BigEndian(left[0]))
    ensures forall j :: 1 <= j < rounds ==> |Matching(strings, MajorityBits(strings, |strings[0]|), j)| != 1
  {
    var bitLength := |strings[0]|;
    var counter := CountOnes(strings, bitLength);
    var target := TargetBits(counter, |strings|);
    assert target == MajorityBits(strings, bitLength);
    gamma := VecToNumber(target);
    var flipped := BitwiseNot(target);
    epsilon := VecToNumber(flipped);
    ComplementSum(target);
    var candidates;
    candidates, rounds := OxygenFilter(strings, target, bitLength);
    if |candidates| == 0 {
      oxygen := None;
    } else {
      var rating := VecToNumber(candidates[0]);
      oxygen := Some(rating);
    }
  }

  // ---------------------------------------------------------------------------
  // Properties of the specification functions

  /** A string of length n is worth less than 2^n. */
  lemma {:induction false} BigEndianBound(v: BitString)
    ensures BigEndian(v) < Pow2(|v|)
  {
    if v != [] {
      BigEndianBound(v[1..]);
    }
  }

  /** Complementing twice gives the string back. */
  lemma ComplementInvolution(v: BitString)
    requires IsBinary(v)
    ensures Complement(Complement(v)) == v
  {
  }

  /** gamma + epsilon: a binary string and its complement add up to 2^n - 1. */
  lemma {:induction false} ComplementSum(v: BitString)
    requires IsBinary(v)
    ensures BigEndian(v) + BigEndian(Complement(v)) == Pow2(|v|) - 1
  {
    if v != [] {
      assert Complement(v)[1..] == Complement(v[1..]);
      ComplementSum(v[1..]);
    }
  }

  /** Counting ones never exceeds the number of strings. */
  lemma {:induction false} OnesAtBound(strings: seq<BitString>, i: nat)
    requires forall s :: s in strings ==> i < |s|
    ensures OnesAt(strings, i) <= |strings|
  {
    if strings != [] {
      OnesAtBound(strings[..|strings| - 1], i);
    }
  }

  /** Membership in Matching: exactly the input strings that agree with the target. */
  lemma {:induction false} MatchingMembers(strings: seq<BitString>, target: BitString, k: nat, s: BitString)
    requires k <= |target|
    ensures s in Matching(strings, target, k) <==> s in strings && Agrees(s, target, k)
  {
    if strings != [] {
      MatchingMembers(strings[1..], target, k, s);
    }
  }

  /** Agreeing on no columns keeps everything. */
  lemma {:induction false} MatchingNone(strings: seq<BitString>, target: BitString)
    ensures Matching(strings, target, 0) == strings
  {
    if strings != [] {
      MatchingNone(strings[1..], target);
    }
  }

  /** One more filter round extends the agreement by one column. */
  lemma {:induction false} MatchingStep(strings: seq<BitString>, target: BitString, k: nat)
    requires k < |target|
    ensures KeepColumn(Matching(strings, target, k), k, target[k]) == Matching(strings, target, k + 1)
  {
    if strings != [] {
      var s := strings[0];
      var tail := strings[1..];
      MatchingStep(tail, target, k);
      var rest := Matching(tail, target, k);
      assert Agrees(s, target, k + 1) <==> Agrees(s, target, k) && k < |s| && s[k] == target[k];
      if Agrees(s, target, k) {
        var m := [s] + rest;
        assert Matching(strings, target, k) == m;
        assert m[0] == s && m[1..] == rest;
      } else {
        assert Matching(strings, target, k) == rest;
      }
    }
  }
}
