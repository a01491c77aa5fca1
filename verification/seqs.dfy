/** Sequence utilities: a filtering map and its characterization by an
    index witness, used for every "keep some lines, in order" step. */
module Seqs {
  import opened Wrappers

  /** Keeps, in order, the payload of every element for which `f` succeeds. */
  function FilterMap<T, U>(s: seq<T>, f: T -> Option<U>): (r: seq<U>)
    ensures |r| <= |s|
  {
    if s == [] then []
    else
      var rest := FilterMap(s[1..], f);
      match f(s[0])
      case Some(u) => [u] + rest
      case None => rest
  }

  /** Positions listed in strictly increasing order. */
  ghost predicate StrictlyIncreasing(idx: seq<nat>) {
    forall a, b :: 0 <= a < b < |idx| ==> idx[a] < idx[b]
  }

  /** Each `r[k]` is the success of `f` at position `idx[k]` of `s`. */
  ghost predicate Produces<T, U>(r: seq<U>, s: seq<T>, f: T -> Option<U>, idx: seq<nat>) {
    && |idx| == |r|
    && forall k :: 0 <= k < |idx| ==> idx[k] < |s| && f(s[idx[k]]) == Some(r[k])
  }

  /** Every position of `s` where `f` succeeds is listed in `idx`. */
  ghost predicate Covers<T, U>(s: seq<T>, f: T -> Option<U>, idx: seq<nat>) {
    forall i :: 0 <= i < |s| && f(s[i]).Some? ==> i in idx
  }

  /** `r` is obtained from `s` by keeping, in order and exactly once, the
      successful results of `f`: `idx[k]` is the position in `s` that
      produced `r[k]`, and every successful position is in `idx`. */
  ghost predicate SelectedBy<T, U>(r: seq<U>, s: seq<T>, f: T -> Option<U>, idx: seq<nat>) {
    StrictlyIncreasing(idx) && Produces(r, s, f, idx) && Covers(s, f, idx)
  }

  /** `r` is some selection of the successes of `f` over `s`. */
  ghost predicate IsSelection<T, U>(r: seq<U>, s: seq<T>, f: T -> Option<U>) {
    exists idx :: SelectedBy(r, s, f, idx)
  }

  function Shift(idx: seq<nat>): (r: seq<nat>)
    ensures |r| == |idx|
    ensures forall k :: 0 <= k < |r| ==> r[k] == idx[k] + 1
  {
    seq(|idx|, k requires 0 <= k < |idx| => idx[k] + 1)
  }

  function Unshift(idx: seq<nat>): (r: seq<nat>)
    requires forall k :: 0 <= k < |idx| ==> idx[k] > 0
    ensures |r| == |idx|
    ensures forall k :: 0 <= k < |r| ==> r[k] == idx[k] - 1
  {
    seq(|idx|, k requires 0 <= k < |idx| => idx[k] - 1)
  }

  lemma ShiftCovers<T, U>(s: seq<T>, f: T -> Option<U>, idx': seq<nat>)
    requires s != [] && Covers(s[1..], f, idx')
    ensures forall i :: 0 < i < |s| && f(s[i]).Some? ==> i in Shift(idx')
  {
    var sh := Shift(idx');
    forall i | 0 < i < |s| && f(s[i]).Some?
      ensures i in sh
    {
      assert s[1..][i - 1] == s[i];
      var k :| 0 <= k < |idx'| && idx'[k] == i - 1;
      assert sh[k] == i;
    }
  }

  lemma ProducesExtendHit<T, U>(r': seq<U>, s: seq<T>, f: T -> Option<U>, idx': seq<nat>)
    requires s != [] && f(s[0]).Some?
    requires Produces(r', s[1..], f, idx')
    ensures Produces([f(s[0]).value] + r', s, f, [0] + Shift(idx'))
  {
    var r := [f(s[0]).value] + r';
    var sh := Shift(idx');
    var idx := [0] + sh;
    forall k | 0 <= k < |idx|
      ensures idx[k] < |s| && f(s[idx[k]]) == Some(r[k])
    {
      if k > 0 {
        assert idx[k] == idx'[k - 1] + 1;
        assert s[idx[k]] == s[1..][idx'[k - 1]];
        assert r[k] == r'[k - 1];
      }
    }
  }

  /** A witness for the tail extends to one for `s` when the head succeeds. */
  lemma SelectedExtendHit<T, U>(s: seq<T>, f: T -> Option<U>, idx': seq<nat>)
    requires s != [] && f(s[0]).Some?
    requires SelectedBy(FilterMap(s[1..], f), s[1..], f, idx')
    ensures SelectedBy(FilterMap(s, f), s, f, [0] + Shift(idx'))
  {
    var r' := FilterMap(s[1..], f);
    assert FilterMap(s, f) == [f(s[0]).value] + r';
    ShiftCovers(s, f, idx');
    assert Covers(s, f, [0] + Shift(idx'));
    ProducesExtendHit(r', s, f, idx');
    ShiftIncreasing(idx');
  }

  lemma ShiftIncreasing(idx: seq<nat>)
    requires StrictlyIncreasing(idx)
    ensures StrictlyIncreasing(Shift(idx))
    ensures StrictlyIncreasing([0] + Shift(idx))
  {
    var sh := Shift(idx);
    var c := [0] + sh;
    forall a, b | 0 <= a < b < |c|
      ensures c[a] < c[b]
    {
      if a > 0 {
        assert c[a] == idx[a - 1] + 1 && c[b] == idx[b - 1] + 1;
      } else {
        assert c[b] == idx[b - 1] + 1;
      }
    }
  }

  /** A witness for the tail extends to one for `s` when the head fails. */
  lemma SelectedExtendMiss<T, U>(s: seq<T>, f: T -> Option<U>, idx': seq<nat>)
    requires s != [] && f(s[0]).None?
    requires SelectedBy(FilterMap(s[1..], f), s[1..], f, idx')
    ensures SelectedBy(FilterMap(s, f), s, f, Shift(idx'))
  {
    ShiftIncreasing(idx');
    var r' := FilterMap(s[1..], f);
    assert FilterMap(s, f) == r';
    var idx := Shift(idx');
    ShiftCovers(s, f, idx');
    assert Covers(s, f, idx);
    forall k | 0 <= k < |idx|
      ensures idx[k] < |s| && f(s[idx[k]]) == Some(r'[k])
    {
      assert s[idx[k]] == s[1..][idx'[k]];
    }
    assert Produces(r', s, f, idx);
  }

  /** The positions `FilterMap` keeps witness that its result is a selection. */
  lemma {:induction false} FilterMapSelects<T, U>(s: seq<T>, f: T -> Option<U>)
    ensures exists idx :: SelectedBy(FilterMap(s, f), s, f, idx)
  {
    if s != [] {
      FilterMapSelects(s[1..], f);
      var idx' :| SelectedBy(FilterMap(s[1..], f), s[1..], f, idx');
      if f(s[0]).Some? {
        SelectedExtendHit(s, f, idx');
      } else {
        SelectedExtendMiss(s, f, idx');
      }
    } else {
      assert SelectedBy(FilterMap(s, f), s, f, []);
    }
  }

  /** A witness for a success at the head of `s` starts with position 0. */
  lemma SelectedDropHit<T, U>(r: seq<U>, s: seq<T>, f: T -> Option<U>, idx: seq<nat>)
    requires SelectedBy(r, s, f, idx)
    requires s != [] && f(s[0]).Some?
    ensures r != [] && r[0] == f(s[0]).value
    ensures forall k :: 0 <= k < |idx[1..]| ==> idx[1..][k] > 0
    ensures SelectedBy(r[1..], s[1..], f, Unshift(idx[1..]))
  {
    HitIsFirst(r, s, f, idx);
    UnshiftIncreasing(idx[1..]);
    DropHitCovers(r, s, f, idx);
    DropHitProduces(r, s, f, idx);
  }

  /** A success at the head of `s` is the first selected position. */
  lemma HitIsFirst<T, U>(r: seq<U>, s: seq<T>, f: T -> Option<U>, idx: seq<nat>)
    requires SelectedBy(r, s, f, idx)
    requires s != [] && f(s[0]).Some?
    ensures idx != [] && idx[0] == 0 && r[0] == f(s[0]).value
    ensures forall k :: 0 <= k < |idx[1..]| ==> idx[1..][k] > 0
  {
    assert 0 in idx;
    var k0 :| 0 <= k0 < |idx| && idx[k0] == 0;
    forall k | 0 <= k < |idx[1..]|
      ensures idx[1..][k] > 0
    {
      assert idx[0] < idx[k + 1];
    }
  }

  lemma DropHitProduces<T, U>(r: seq<U>, s: seq<T>, f: T -> Option<U>, idx: seq<nat>)
    requires Produces(r, s, f, idx)
    requires s != [] && idx != [] && idx[0] == 0
    requires forall k :: 0 <= k < |idx[1..]| ==> idx[1..][k] > 0
    ensures Produces(r[1..], s[1..], f, Unshift(idx[1..]))
  {
    var idx' := Unshift(idx[1..]);
    forall k | 0 <= k < |idx'|
      ensures idx'[k] < |s[1..]| && f(s[1..][idx'[k]]) == Some(r[1..][k])
    {
      assert s[1..][idx'[k]] == s[idx[k + 1]];
    }
  }

  lemma UnshiftIncreasing(idx: seq<nat>)
    requires forall k :: 0 <= k < |idx| ==> idx[k] > 0
    requires StrictlyIncreasing(idx)
    ensures StrictlyIncreasing(Unshift(idx))
  {
  }

  lemma DropHitCovers<T, U>(r: seq<U>, s: seq<T>, f: T -> Option<U>, idx: seq<nat>)
    requires SelectedBy(r, s, f, idx)
    requires s != [] && idx != [] && idx[0] == 0
    requires forall k :: 0 <= k < |idx[1..]| ==> idx[1..][k] > 0
    ensures Covers(s[1..], f, Unshift(idx[1..]))
  {
    var idx' := Unshift(idx[1..]);
    forall i | 0 <= i < |s[1..]| && f(s[1..][i]).Some?
      ensures i in idx'
    {
      assert s[1..][i] == s[i + 1];
      var k :| 0 <= k < |idx| && idx[k] == i + 1;
      assert idx'[k - 1] == i;
    }
  }

  /** A witness for a failure at the head of `s` never mentions position 0. */
  lemma SelectedDropMiss<T, U>(r: seq<U>, s: seq<T>, f: T -> Option<U>, idx: seq<nat>)
    requires SelectedBy(r, s, f, idx)
    requires s != [] && f(s[0]).None?
    ensures forall k :: 0 <= k < |idx| ==> idx[k] > 0
    ensures SelectedBy(r, s[1..], f, Unshift(idx))
  {
    MissIsAbsent(r, s, f, idx);
    UnshiftIncreasing(idx);
    DropMissCovers(s, f, idx);
    DropMissProduces(r, s, f, idx);
  }

  /** A failure at the head of `s` is not a selected position. */
  lemma MissIsAbsent<T, U>(r: seq<U>, s: seq<T>, f: T -> Option<U>, idx: seq<nat>)
    requires Produces(r, s, f, idx)
    requires s != [] && f(s[0]).None?
    ensures forall k :: 0 <= k < |idx| ==> idx[k] > 0
  {
    forall k | 0 <= k < |idx|
      ensures idx[k] > 0
    {
    }
  }

  lemma DropMissCovers<T, U>(s: seq<T>, f: T -> Option<U>, idx: seq<nat>)
    requires Covers(s, f, idx)
    requires s != []
    requires forall k :: 0 <= k < |idx| ==> idx[k] > 0
    ensures Covers(s[1..], f, Unshift(idx))
  {
    var idx' := Unshift(idx);
    forall i | 0 <= i < |s[1..]| && f(s[1..][i]).Some?
      ensures i in idx'
    {
      assert s[1..][i] == s[i + 1];
      var k :| 0 <= k < |idx| && idx[k] == i + 1;
      assert idx'[k] == i;
    }
  }

  lemma DropMissProduces<T, U>(r: seq<U>, s: seq<T>, f: T -> Option<U>, idx: seq<nat>)
    requires Produces(r, s, f, idx)
    requires s != []
    requires forall k :: 0 <= k < |idx| ==> idx[k] > 0
    ensures Produces(r, s[1..], f, Unshift(idx))
  {
    var idx' := Unshift(idx);
    forall k | 0 <= k < |idx'|
      ensures idx'[k] < |s[1..]| && f(s[1..][idx'[k]]) == Some(r[k])
    {
      assert s[1..][idx'[k]] == s[idx[k]];
    }
  }

  /** A selection is unique: any list with a witness is the `FilterMap`. */
  lemma {:induction false} SelectedIsFilterMap<T, U>(r: seq<U>, s: seq<T>, f: T -> Option<U>, idx: seq<nat>)
    requires SelectedBy(r, s, f, idx)
    ensures r == FilterMap(s, f)
    decreases |s|
  {
    if s == [] {
    } else if f(s[0]).Some? {
      SelectedDropHit(r, s, f, idx);
      SelectedIsFilterMap(r[1..], s[1..], f, Unshift(idx[1..]));
      assert r == [r[0]] + r[1..];
    } else {
      SelectedDropMiss(r, s, f, idx);
      SelectedIsFilterMap(r, s[1..], f, Unshift(idx));
    }
  }

  /** `FilterMap` is exactly "keep every success once, in order": a result
      equals `FilterMap(s, f)` if and only if an index witness exists. */
  lemma FilterMapCharacterization<T, U>(r: seq<U>, s: seq<T>, f: T -> Option<U>)
    ensures r == FilterMap(s, f) <==> IsSelection(r, s, f)
  {
    if r == FilterMap(s, f) {
      FilterMapSelects(s, f);
    }
    if IsSelection(r, s, f) {
      var idx :| SelectedBy(r, s, f, idx);
      SelectedIsFilterMap(r, s, f, idx);
    }
  }

  /** Filtering distributes over concatenation: no element's fate depends on
      its neighbours. */
  lemma {:induction false} FilterMapAppend<T, U>(a: seq<T>, b: seq<T>, f: T -> Option<U>)
    ensures FilterMap(a + b, f) == FilterMap(a, f) + FilterMap(b, f)
  {
    if a == [] {
      assert a + b == b;
    } else {
      assert (a + b)[0] == a[0];
      assert (a + b)[1..] == a[1..] + b;
      FilterMapAppend(a[1..], b, f);
    }
  }

  /** Regrouping a concatenation of four parts to the right. */
  lemma Regroup4<T>(a: seq<T>, b: seq<T>, c: seq<T>, d: seq<T>)
    ensures a + b + c + d == a + (b + (c + d))
  {
  }

  /** Splitting off the head of the left operand of a concatenation. */
  lemma ConsAppend<T>(xs: seq<T>, ys: seq<T>)
    requires xs != []
    ensures xs + ys == [xs[0]] + (xs[1..] + ys)
  {
  }

  /** Concatenation of a sequence of sequences. */
  function Flatten<T>(ss: seq<seq<T>>): (r: seq<T>)
    ensures ss == [] ==> r == []
  {
    if ss == [] then [] else ss[0] + Flatten(ss[1..])
  }
}
