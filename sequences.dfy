/**
 * Order-preserving selection of elements, the relation the line editors
 * of the code generator keep between their output and their input.
 */
module Sequences {

  /** `a` is `b` with some elements left out, the others in their order. */
  ghost predicate Subseq<T>(a: seq<T>, b: seq<T>)
  {
    if b == [] then a == []
    else Subseq(a, b[1..]) || (a != [] && a[0] == b[0] && Subseq(a[1..], b[1..]))
  }

  lemma {:induction false} SubseqEmpty<T>(b: seq<T>)
    ensures Subseq([], b)
  {
    if b != [] {
      SubseqEmpty(b[1..]);
    }
  }

  lemma {:induction false} SubseqRefl<T>(b: seq<T>)
    ensures Subseq(b, b)
  {
    if b != [] {
      SubseqRefl(b[1..]);
    }
  }

  /** Selections side by side select from the sequences side by side. */
  lemma {:induction false} SubseqAppend<T>(a1: seq<T>, b1: seq<T>, a2: seq<T>, b2: seq<T>)
    requires Subseq(a1, b1) && Subseq(a2, b2)
    ensures Subseq(a1 + a2, b1 + b2)
  {
    if b1 == [] {
      assert a1 + a2 == a2 && b1 + b2 == b2;
    } else {
      assert (b1 + b2)[1..] == b1[1..] + b2;
      if Subseq(a1, b1[1..]) {
        SubseqAppend(a1, b1[1..], a2, b2);
      } else {
        SubseqAppend(a1[1..], b1[1..], a2, b2);
        assert (a1 + a2)[1..] == a1[1..] + a2;
      }
    }
  }

  /** A non-empty sequence is its front and its last element. */
  lemma InitLast<T>(s: seq<T>)
    requires s != []
    ensures s[..|s| - 1] + [s[|s| - 1]] == s
  {
  }

  /** Equal sequences that end alike are equal without their last element. */
  lemma CancelLast<T>(a: seq<T>, b: seq<T>, x: T)
    requires a + [x] == b + [x]
    ensures a == b
  {
    assert a == (a + [x])[..|a|];
  }

  lemma AppendEmpty<T>(s: seq<T>)
    ensures s + [] == s && [] + s == s
  {
  }

  lemma AppendAssoc<T>(a: seq<T>, b: seq<T>, c: seq<T>)
    ensures a + (b + c) == a + b + c
  {
  }

  lemma AppendAssoc4<T>(a: seq<T>, b: seq<T>, c: seq<T>, d: seq<T>)
    ensures a + b + c + d == a + (b + c + d)
  {
  }

  lemma AppendAssocOne<T>(a: seq<T>, x: T, c: seq<T>)
    ensures a + ([x] + c) == a + [x] + c
  {
  }

  /** Keeping the last element or not: either way a selection. */
  lemma SubseqSnoc<T>(a: seq<T>, b: seq<T>, x: T, keep: bool)
    requires Subseq(a, b)
    ensures Subseq(a + (if keep then [x] else []), b + [x])
  {
    if keep {
      SubseqRefl([x]);
      SubseqAppend(a, b, [x], [x]);
    } else {
      SubseqEmpty([x]);
      SubseqAppend(a, b, [], [x]);
      assert a + [] == a;
    }
  }

  /** Everything selected comes from the sequence selected from. */
  lemma {:induction false} SubseqMembers<T>(a: seq<T>, b: seq<T>)
    requires Subseq(a, b)
    ensures forall x | x in a :: x in b
  {
    if b != [] {
      if Subseq(a, b[1..]) {
        SubseqMembers(a, b[1..]);
      } else {
        SubseqMembers(a[1..], b[1..]);
        assert a == [a[0]] + a[1..];
      }
    }
  }

  /** Adjacent slices joined. */
  lemma SliceJoin<T>(s: seq<T>, i: nat, j: nat)
    requires i <= j <= |s|
    ensures s[i..j] + s[j..] == s[i..]
  {
  }

  /** A slice is its front, its middle and its last element. */
  lemma SliceFrame<T>(s: seq<T>, i: nat, j: nat, e: nat)
    requires i <= j <= e < |s|
    ensures s[i..j] + s[j..e] + [s[e]] == s[i..e + 1]
  {
  }

  /** Selections from adjacent slices select from their union. */
  lemma SubseqSplit<T>(s: seq<T>, i: nat, j: nat, x: seq<T>, y: seq<T>)
    requires i <= j <= |s| && Subseq(x, s[i..j]) && Subseq(y, s[j..])
    ensures Subseq(x + y, s[i..])
  {
    SubseqAppend(x, s[i..j], y, s[j..]);
    SliceJoin(s, i, j);
  }

  /** Keeping both ends of a slice and selecting from its middle. */
  lemma SubseqFrame<T>(s: seq<T>, i: nat, j: nat, e: nat, mid: seq<T>)
    requires i <= j <= e < |s| && Subseq(mid, s[j..e])
    ensures Subseq(s[i..j] + mid + [s[e]], s[i..e + 1])
  {
    SubseqRefl(s[i..j]);
    SubseqRefl([s[e]]);
    SubseqAppend(s[i..j], s[i..j], mid, s[j..e]);
    SubseqAppend(s[i..j] + mid, s[i..j] + s[j..e], [s[e]], [s[e]]);
    SliceFrame(s, i, j, e);
  }

  /** The first of two elements alone. */
  lemma SubseqFirstOfTwo<T>(s: seq<T>, i: nat)
    requires i + 1 < |s|
    ensures Subseq([s[i]], s[i..i + 2])
  {
    SubseqEmpty([s[i + 1]]);
    SubseqRefl([s[i]]);
    SubseqAppend([s[i]], [s[i]], [], [s[i + 1]]);
    assert [s[i]] + [] == [s[i]] && [s[i]] + [s[i + 1]] == s[i..i + 2];
  }

  /** Inserting elements at `p` keeps every element of `s`, in order. */
  lemma SubseqInsert<T>(s: seq<T>, p: nat, ins: seq<T>)
    requires p <= |s|
    ensures Subseq(s, s[..p] + ins + s[p..])
  {
    SubseqRefl(s[..p]);
    SubseqEmpty(ins);
    SubseqAppend(s[..p], s[..p], [], ins);
    SubseqRefl(s[p..]);
    SubseqAppend(s[..p] + [], s[..p] + ins, s[p..], s[p..]);
    assert s[..p] + [] + s[p..] == s;
  }

  /** The two halves of a concatenation. */
  lemma AppendSlices<T>(a: seq<T>, b: seq<T>)
    ensures (a + b)[..|a|] == a && (a + b)[|a|..] == b
  {
  }

  /** A sequence between two single elements. */
  lemma Enclosed<T>(x: T, s: seq<T>, y: T)
    ensures var e := [x] + s + [y]; |e| == |s| + 2 && e[0] == x && e[|s| + 1] == y && e[1..|s| + 1] == s
  {
    var e := [x] + s + [y];
    assert e[1..|s| + 1] == s;
  }
}
