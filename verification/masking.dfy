/** pandas/numpy boolean indexing (`values[mask]`) and index-membership
    flags (`index.isin(positions)`), with the facts about them the pipeline uses. */
module Masking {

  /** Strictly increasing: what `find_peaks` returns, and what is kept by masking. */
  predicate StrictlyAscending(s: seq<int>)
  {
    forall a, b :: 0 <= a < b < |s| ==> s[a] < s[b]
  }

  /** Putting a smaller element in front keeps a sequence strictly ascending. */
  lemma AscendingCons(h: int, s: seq<int>)
    requires StrictlyAscending(s)
    requires forall k :: 0 <= k < |s| ==> h < s[k]
    ensures StrictlyAscending([h] + s)
  {
    var r := [h] + s;
    forall a, b | 0 <= a < b < |r| ensures r[a] < r[b] {
      assert r[b] == s[b - 1];
      if a > 0 {
        assert r[a] == s[a - 1];
      }
    }
  }

  /** The number of set entries of a mask. */
  function CountTrue(mask: seq<bool>): (count: nat)
  {
    if |mask| == 0 then 0 else (if mask[0] then 1 else 0) + CountTrue(mask[1..])
  }

  /** Every position moved one place to the right. */
  function Shift(p: seq<nat>): (q: seq<nat>)
    ensures |q| == |p|
    ensures forall t :: 0 <= t < |p| ==> q[t] == p[t] + 1
  {
    seq(|p|, t requires 0 <= t < |p| => p[t] + 1)
  }

  /** Shifting moves every member one place to the right. */
  lemma ShiftMember(p: seq<nat>, x: nat)
    requires x in p
    ensures x + 1 in Shift(p)
  {
    var t :| 0 <= t < |p| && p[t] == x;
    assert Shift(p)[t] == x + 1;
  }

  /** The positions of the set entries of a mask, from the front. */
  function MaskPositions(mask: seq<bool>): (p: seq<nat>)
    ensures |p| == CountTrue(mask)
    ensures forall t :: 0 <= t < |p| ==> p[t] < |mask| && mask[p[t]]
    decreases |mask|
  {
    if |mask| == 0 then []
    else (if mask[0] then [0] else []) + Shift(MaskPositions(mask[1..]))
  }

  /** The positions are listed in increasing order. */
  lemma {:induction false} MaskPositionsAscending(mask: seq<bool>)
    ensures StrictlyAscending(MaskPositions(mask))
    decreases |mask|
  {
    if |mask| > 0 {
      var tail := MaskPositions(mask[1..]);
      MaskPositionsAscending(mask[1..]);
      var shifted := Shift(tail);
      assert StrictlyAscending(shifted);
      if mask[0] {
        AscendingCons(0, shifted);
      }
    }
  }

  /** A set entry of the mask is listed among its positions. */
  lemma {:induction false} MaskPositionListed(mask: seq<bool>, i: nat)
    requires i < |mask| && mask[i]
    ensures i in MaskPositions(mask)
    decreases i
  {
    var shifted := Shift(MaskPositions(mask[1..]));
    assert MaskPositions(mask) == (if mask[0] then [0] else []) + shifted;
    if i > 0 {
      assert mask[1..][i - 1];
      MaskPositionListed(mask[1..], i - 1);
      ShiftMember(MaskPositions(mask[1..]), i - 1);
    }
  }

  /** `s[mask]`: the entries of `s` whose mask entry is set, in their original order. */
  function Select<T(==, !new)>(s: seq<T>, mask: seq<bool>): (r: seq<T>)
    requires |mask| == |s|
    ensures |r| == CountTrue(mask)
    ensures forall v :: v in r <==> exists k :: 0 <= k < |s| && mask[k] && s[k] == v
    ensures (forall k :: 0 <= k < |mask| ==> mask[k]) ==> r == s
    decreases |s|
  {
    if |s| == 0 then []
    else
      var tail := Select(s[1..], mask[1..]);
      assert forall k :: 1 <= k < |s| ==> mask[1..][k - 1] == mask[k] && s[1..][k - 1] == s[k];
      (if mask[0] then [s[0]] else []) + tail
  }

  /** Masking keeps the original order: entry t of `s[mask]` is the entry of
      `s` at the t-th set position of the mask. */
  lemma {:induction false} SelectAtPositions<T(!new)>(s: seq<T>, mask: seq<bool>)
    requires |mask| == |s|
    ensures |Select(s, mask)| == |MaskPositions(mask)|
    ensures forall t :: 0 <= t < |Select(s, mask)| ==> Select(s, mask)[t] == s[MaskPositions(mask)[t]]
    decreases |s|
  {
    if |s| > 0 {
      var tail := Select(s[1..], mask[1..]);
      var positions := MaskPositions(mask[1..]);
      SelectAtPositions(s[1..], mask[1..]);
      var shifted := Shift(positions);
      forall t | 0 <= t < |tail| ensures tail[t] == s[shifted[t]] {
        assert tail[t] == s[1..][positions[t]];
      }
      if mask[0] {
        assert Select(s, mask) == [s[0]] + tail;
        assert MaskPositions(mask) == [0] + shifted;
      } else {
        assert Select(s, mask) == tail;
        assert MaskPositions(mask) == shifted;
      }
    }
  }

  /** Masking never breaks strict ascent, whatever the list. */
  lemma SelectKeepsAscending(s: seq<nat>, mask: seq<bool>)
    requires |mask| == |s|
    ensures StrictlyAscending(s) ==> StrictlyAscending(Select<nat>(s, mask))
  {
    if StrictlyAscending(s) {
      SelectAscending(s, mask);
    }
  }

  /** Masking a strictly ascending sequence keeps it strictly ascending. */
  lemma {:induction false} SelectAscending(s: seq<nat>, mask: seq<bool>)
    requires |mask| == |s|
    requires StrictlyAscending(s)
    ensures StrictlyAscending(Select<nat>(s, mask))
    decreases |s|
  {
    if |s| > 0 {
      var tail := Select<nat>(s[1..], mask[1..]);
      SelectAscending(s[1..], mask[1..]);
      forall v | v in tail
        ensures s[0] < v
      {
        var k :| 0 <= k < |s| - 1 && mask[1..][k] && s[1..][k] == v;
        assert s[k + 1] == v;
      }
      var r := Select<nat>(s, mask);
      if mask[0] {
        forall a, b | 0 <= a < b < |r|
          ensures r[a] < r[b]
        {
          assert r[b] == tail[b - 1] && tail[b - 1] in tail;
          if a > 0 {
            assert r[a] == tail[a - 1];
          }
        }
      } else {
        assert r == tail;
      }
    }
  }

  /** `index.isin(positions)` over the positions 0 .. n-1. */
  function MembershipFlags(n: nat, positions: seq<int>): (flags: seq<bool>)
    ensures |flags| == n
    ensures forall i :: 0 <= i < n ==> (flags[i] <==> i in positions)
  {
    seq(n, i requires 0 <= i < n => i in positions)
  }

  /** Setting one cleared entry of a mask raises its count by one. */
  lemma {:induction false} CountTrueSetOne(mask: seq<bool>, i: int)
    requires 0 <= i < |mask| && !mask[i]
    ensures CountTrue(mask[i := true]) == CountTrue(mask) + 1
    decreases |mask|
  {
    if i > 0 {
      assert mask[i := true][1..] == mask[1..][i - 1 := true];
      CountTrueSetOne(mask[1..], i - 1);
    }
  }

  /** When the positions are distinct (ascending) and all inside [0, n), exactly
      as many flags are set as there are positions. */
  lemma {:induction false} MembershipFlagsCount(n: nat, positions: seq<int>)
    requires StrictlyAscending(positions)
    requires forall k :: 0 <= k < |positions| ==> 0 <= positions[k] < n
    ensures CountTrue(MembershipFlags(n, positions)) == |positions|
    decreases |positions|
  {
    if |positions| == 0 {
      CountNone(MembershipFlags(n, positions));
    } else {
      var last := positions[|positions| - 1];
      var init := positions[..|positions| - 1];
      MembershipFlagsCount(n, init);
      assert last !in init by {
        forall k | 0 <= k < |init| ensures init[k] != last {
          assert positions[k] < positions[|positions| - 1];
        }
      }
      assert MembershipFlags(n, positions) == MembershipFlags(n, init)[last := true] by {
        forall i | 0 <= i < n
          ensures MembershipFlags(n, positions)[i] == MembershipFlags(n, init)[last := true][i]
        {
          assert positions == init + [last];
        }
      }
      CountTrueSetOne(MembershipFlags(n, init), last);
    }
  }

  /** A mask with no set entry counts zero. */
  lemma {:induction false} CountNone(mask: seq<bool>)
    requires forall k :: 0 <= k < |mask| ==> !mask[k]
    ensures CountTrue(mask) == 0
    decreases |mask|
  {
    if |mask| > 0 {
      CountNone(mask[1..]);
    }
  }
}
