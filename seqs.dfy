/** Sequence helpers shared by the forecast table and the card grid. */
module Seqs {

  /** The groups laid end to end, first group first. */
  function Concat<T>(groups: seq<seq<T>>): seq<T>
  {
    if groups == [] then [] else Concat(groups[..|groups| - 1]) + groups[|groups| - 1]
  }

  /** The sum of the lengths of the groups. */
  function SumLengths<T>(groups: seq<seq<T>>): nat
  {
    if groups == [] then 0 else SumLengths(groups[..|groups| - 1]) + |groups[|groups| - 1]|
  }

  lemma {:induction false} ConcatAppend<T>(a: seq<seq<T>>, b: seq<seq<T>>)
    ensures Concat(a + b) == Concat(a) + Concat(b)
    decreases |b|
  {
    if b == [] {
      assert a + b == a;
    } else {
      var b' := b[..|b| - 1];
      assert (a + b)[..|a + b| - 1] == a + b';
      ConcatAppend(a, b');
    }
  }

  /** Closing one more group appends it. */
  lemma ConcatSnoc<T>(groups: seq<seq<T>>, group: seq<T>)
    ensures Concat(groups + [group]) == Concat(groups) + group
  {
    assert (groups + [group])[..|groups|] == groups;
  }

  /** Concatenating the groups keeps every element: as many as the groups hold together. */
  lemma {:induction false} ConcatLength<T>(groups: seq<seq<T>>)
    ensures |Concat(groups)| == SumLengths(groups)
    decreases |groups|
  {
    if groups != [] {
      ConcatLength(groups[..|groups| - 1]);
    }
  }

  /** Where group i starts in the concatenation: the number of elements in the groups before it. */
  function Offset<T>(groups: seq<seq<T>>, i: nat): nat
    requires i <= |groups|
  {
    SumLengths(groups[..i])
  }

  /**
   * Concatenation goes group by group and keeps each group's own order: element j of
   * group i lands right after everything in the groups before it.
   */
  lemma {:induction false} ConcatAt<T>(groups: seq<seq<T>>, i: nat, j: nat)
    requires i < |groups| && j < |groups[i]|
    ensures Offset(groups, i) + j < |Concat(groups)|
    ensures Concat(groups)[Offset(groups, i) + j] == groups[i][j]
  {
    assert groups == groups[..i] + [groups[i]] + groups[i + 1..];
    ConcatAppend(groups[..i] + [groups[i]], groups[i + 1..]);
    ConcatAppend(groups[..i], [groups[i]]);
    assert Concat([groups[i]]) == groups[i] by {
      assert [groups[i]][..0] == [];
    }
    ConcatLength(groups[..i]);
  }

  /**
   * The groups of a row-major grid with rows of `width` cells: every row full except
   * possibly the last, which is never empty.
   */
  function Chunks<T>(s: seq<T>, width: nat): (rows: seq<seq<T>>)
    requires width > 0
    decreases |s|
  {
    if s == [] then []
    else if |s| <= width then [s]
    else [s[..width]] + Chunks(s[width..], width)
  }

  /** The shape of a grid: full rows of `width`, then at most one shorter but non-empty row. */
  ghost predicate GridShape<T>(rows: seq<seq<T>>, width: nat)
  {
    && (forall i :: 0 <= i < |rows| ==> 0 < |rows[i]| <= width)
    && (forall i :: 0 <= i < |rows| - 1 ==> |rows[i]| == width)
  }

  /** Chunking has the grid shape and loses and reorders nothing. */
  lemma {:induction false} ChunksShape<T>(s: seq<T>, width: nat)
    requires width > 0
    ensures GridShape(Chunks(s, width), width)
    ensures Concat(Chunks(s, width)) == s
    decreases |s|
  {
    if s == [] {
    } else if |s| <= width {
      assert Concat([s]) == s by { assert [s][..0] == []; }
    } else {
      ChunksShape(s[width..], width);
      ConcatAppend([s[..width]], Chunks(s[width..], width));
      assert Concat([s[..width]]) == s[..width] by { assert [s[..width]][..0] == []; }
      assert s[..width] + s[width..] == s;
    }
  }

  /** The grid shape and the concatenation determine the rows: the only such grid is `Chunks`. */
  lemma {:induction false} ChunksUnique<T>(rows: seq<seq<T>>, s: seq<T>, width: nat)
    requires width > 0
    requires GridShape(rows, width)
    requires Concat(rows) == s
    ensures rows == Chunks(s, width)
    decreases |rows|
  {
    if rows == [] {
    } else {
      ConcatAppend([rows[0]], rows[1..]);
      assert [rows[0]] + rows[1..] == rows;
      assert Concat([rows[0]]) == rows[0] by { assert [rows[0]][..0] == []; }
      if |rows| == 1 {
        assert Concat(rows[1..]) == [];
        assert s == rows[0];
      } else {
        assert |rows[0]| == width;
        ConcatLength(rows[1..]);
        assert |rows[1]| > 0;
        assert Concat(rows[1..]) != [] by {
          ConcatAppend([rows[1]], rows[2..]);
          assert [rows[1]] + rows[2..] == rows[1..];
          assert Concat([rows[1]]) == rows[1] by { assert [rows[1]][..0] == []; }
        }
        assert s[..width] == rows[0] && s[width..] == Concat(rows[1..]);
        ChunksUnique(rows[1..], s[width..], width);
      }
    }
  }
}
