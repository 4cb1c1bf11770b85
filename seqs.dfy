/** Boolean-mask selection over a sequence of rows, and what it means for one
    sequence to be an order-preserving subsequence of another. */
module Seqs {

  /** The elements of `s` for which `keep` holds, in their original order
      (the effect of indexing a table with a boolean mask). */
  function Select<T>(s: seq<T>, keep: T -> bool): (r: seq<T>)
    ensures |r| <= |s|
    ensures forall x :: x in r ==> x in s && keep(x)
    ensures forall x :: x in s && keep(x) ==> x in r
  {
    if s == [] then []
    else (if keep(s[0]) then [s[0]] else []) + Select(s[1..], keep)
  }

  /** `idx` lists, strictly ascending, the positions in `s` that `sub` was taken from. */
  ghost predicate Embeds<T>(sub: seq<T>, s: seq<T>, idx: seq<nat>) {
    && |idx| == |sub|
    && (forall k :: 0 <= k < |idx| ==> idx[k] < |s| && sub[k] == s[idx[k]])
    && (forall k, l :: 0 <= k < l < |idx| ==> idx[k] < idx[l])
  }

  ghost function Shift(idx: seq<nat>): seq<nat> {
    seq(|idx|, k requires 0 <= k < |idx| => idx[k] + 1)
  }

  /** The positions of `s` whose element `keep` accepts, in ascending order. */
  ghost function SelectIndices<T>(s: seq<T>, keep: T -> bool): seq<nat> {
    if s == [] then []
    else (if keep(s[0]) then [0] else []) + Shift(SelectIndices(s[1..], keep))
  }

  lemma ShiftMembers(idx: seq<nat>, i: nat)
    ensures i in Shift(idx) <==> 1 <= i && i - 1 in idx
  {
    if i in Shift(idx) {
      var k :| 0 <= k < |idx| && Shift(idx)[k] == i;
      assert idx[k] == i - 1;
    }
    if 1 <= i && i - 1 in idx {
      var k :| 0 <= k < |idx| && idx[k] == i - 1;
      assert Shift(idx)[k] == i;
    }
  }

  /** The positions recorded for a selection are exactly those the mask accepts. */
  lemma {:induction false} SelectIndicesExact<T>(s: seq<T>, keep: T -> bool)
    ensures forall i: nat :: i in SelectIndices(s, keep) <==> i < |s| && keep(s[i])
  {
    if s != [] {
      SelectIndicesExact(s[1..], keep);
      forall i: nat ensures i in SelectIndices(s, keep) <==> i < |s| && keep(s[i]) {
        SelectIndicesStep(s, keep, i);
      }
    }
  }

  /** One position, given the claim for the tail. */
  lemma SelectIndicesStep<T>(s: seq<T>, keep: T -> bool, i: nat)
    requires s != []
    requires forall j: nat :: j in SelectIndices(s[1..], keep) <==> j < |s[1..]| && keep(s[1..][j])
    ensures i in SelectIndices(s, keep) <==> i < |s| && keep(s[i])
  {
    var tailIdx := SelectIndices(s[1..], keep);
    assert SelectIndices(s, keep) == (if keep(s[0]) then [0] else []) + Shift(tailIdx);
    ShiftMembers(tailIdx, i);
    if 1 <= i {
      assert i - 1 in tailIdx <==> i - 1 < |s[1..]| && keep(s[1..][i - 1]);
      assert i < |s| ==> s[1..][i - 1] == s[i];
    }
  }

  /** Selection takes each kept element from the recorded position, in ascending order. */
  lemma {:induction false} SelectEmbeds<T>(s: seq<T>, keep: T -> bool)
    ensures Embeds(Select(s, keep), s, SelectIndices(s, keep))
  {
    if s != [] {
      var tail, tailIdx := Select(s[1..], keep), SelectIndices(s[1..], keep);
      SelectEmbeds(s[1..], keep);
      EmbedsShift(tail, s, tailIdx);
      if keep(s[0]) {
        assert Select(s, keep) == [s[0]] + tail;
        assert SelectIndices(s, keep) == [0] + Shift(tailIdx);
        EmbedsCons(tail, s, Shift(tailIdx));
      } else {
        assert Select(s, keep) == tail;
        assert SelectIndices(s, keep) == Shift(tailIdx);
      }
    }
  }

  /** An embedding into the tail, shifted by one, is an embedding into the whole. */
  lemma EmbedsShift<T>(sub: seq<T>, s: seq<T>, idx: seq<nat>)
    requires s != [] && Embeds(sub, s[1..], idx)
    ensures Embeds(sub, s, Shift(idx))
  {
    forall k | 0 <= k < |idx| ensures Shift(idx)[k] < |s| && sub[k] == s[Shift(idx)[k]] {
      assert s[idx[k] + 1] == s[1..][idx[k]];
    }
  }

  /** The head can be put in front of an embedding that avoids position 0. */
  lemma EmbedsCons<T>(sub: seq<T>, s: seq<T>, idx: seq<nat>)
    requires s != [] && Embeds(sub, s, idx)
    requires forall k :: 0 <= k < |idx| ==> 0 < idx[k]
    ensures Embeds([s[0]] + sub, s, [0] + idx)
  {
    forall k, l | 0 <= k < l < |idx| + 1 ensures ([0] + idx)[k] < ([0] + idx)[l] {
      if k > 0 {
        assert ([0] + idx)[k] == idx[k - 1];
      }
    }
    forall k | 0 <= k < |idx| + 1
      ensures ([0] + idx)[k] < |s| && ([s[0]] + sub)[k] == s[([0] + idx)[k]]
    {
      if k > 0 {
        assert ([0] + idx)[k] == idx[k - 1] && ([s[0]] + sub)[k] == sub[k - 1];
      }
    }
  }

  /** Selecting from a concatenation selects from each part. */
  lemma {:induction false} SelectAppend<T>(a: seq<T>, b: seq<T>, keep: T -> bool)
    ensures Select(a + b, keep) == Select(a, keep) + Select(b, keep)
  {
    if a == [] {
      assert a + b == b;
    } else {
      assert (a + b)[1..] == a[1..] + b;
      SelectAppend(a[1..], b, keep);
    }
  }

  /** A mask that accepts some element selects something. */
  lemma SelectNonEmpty<T>(s: seq<T>, keep: T -> bool, i: nat)
    requires i < |s| && keep(s[i])
    ensures Select(s, keep) != []
  {
    assert s[i] in s;
  }

  /** Two masks that agree on every element select the same rows. */
  lemma {:induction false} SelectExt<T>(s: seq<T>, p: T -> bool, q: T -> bool)
    requires forall x :: x in s ==> p(x) == q(x)
    ensures Select(s, p) == Select(s, q)
  {
    if s != [] {
      SelectExt(s[1..], p, q);
    }
  }

  /** A mask keeps the whole sequence exactly when it accepts every element. */
  lemma {:induction false} SelectKeepsAll<T>(s: seq<T>, keep: T -> bool)
    ensures Select(s, keep) == s <==> forall x :: x in s ==> keep(x)
  {
    if s != [] {
      SelectKeepsAll(s[1..], keep);
      if forall x :: x in s ==> keep(x) {
        assert keep(s[0]);
        assert forall x :: x in s[1..] ==> x in s;
      }
    }
  }

  /** Applying one mask after another is applying their conjunction. */
  lemma {:induction false} SelectSelect<T>(s: seq<T>, p: T -> bool, q: T -> bool, both: T -> bool)
    requires forall x :: both(x) == (p(x) && q(x))
    ensures Select(Select(s, p), q) == Select(s, both)
  {
    if s != [] {
      var head := if p(s[0]) then [s[0]] else [];
      SelectAppend(head, Select(s[1..], p), q);
      SelectSelect(s[1..], p, q, both);
    }
  }

  /** Applying the same mask twice is applying it once. */
  lemma SelectIdempotent<T>(s: seq<T>, keep: T -> bool)
    ensures Select(Select(s, keep), keep) == Select(s, keep)
  {
    SelectKeepsAll(Select(s, keep), keep);
  }
}
