/** Small building blocks shared by the four grid games. */

/** An optional value: the result of a computation that may not finish. */
module Options {
  datatype Option<+T> = None | Some(value: T)
}

/** Rectangular integer boards: row `r`, column `c` is `b[r][c]`, and 0 is an empty cell. */
module Grid {

  type Row = seq<int>
  type Board = seq<Row>

  /** `b` has `rows` rows of `cols` cells each. */
  predicate IsRect(b: Board, rows: nat, cols: nat) {
    |b| == rows && forall r :: 0 <= r < rows ==> |b[r]| == cols
  }

  /** A row of `n` empty cells. */
  function Zeros(n: nat): (z: Row)
    ensures |z| == n
    ensures forall i :: 0 <= i < n ==> z[i] == 0
  {
    seq(n, _ => 0)
  }

  /** A board of empty cells (`Array.from({length: rows}, () => Array(cols).fill(0))`). */
  function Empty(rows: nat, cols: nat): (b: Board)
    ensures IsRect(b, rows, cols)
    ensures forall r, c :: 0 <= r < rows && 0 <= c < cols ==> b[r][c] == 0
  {
    seq(rows, _ => Zeros(cols))
  }

  /** The board `b` with the one cell (r, c) replaced by `v`. */
  function SetCell(b: Board, r: int, c: int, v: int): (b': Board)
    requires 0 <= r < |b| && 0 <= c < |b[r]|
    ensures |b'| == |b|
    ensures forall i :: 0 <= i < |b| ==> |b'[i]| == |b[i]|
    ensures b'[r][c] == v
    ensures forall i, j :: 0 <= i < |b| && 0 <= j < |b[i]| && (i != r || j != c) ==> b'[i][j] == b[i][j]
  {
    b[r := b[r][c := v]]
  }

  /** Column `c` of `b`, read from the top row down. */
  function Column(b: Board, c: int): (col: Row)
    requires 0 <= c && forall r :: 0 <= r < |b| ==> c < |b[r]|
    ensures |col| == |b|
    ensures forall r :: 0 <= r < |b| ==> col[r] == b[r][c]
  {
    seq(|b|, r requires 0 <= r < |b| => b[r][c])
  }

  /** The sum of a sequence of integers. */
  function Sum(s: seq<int>): int
  {
    if |s| == 0 then 0 else s[0] + Sum(s[1..])
  }

  lemma {:induction false} SumAppend(a: seq<int>, b: seq<int>)
    ensures Sum(a + b) == Sum(a) + Sum(b)
  {
    if |a| == 0 {
      assert a + b == b;
    } else {
      assert (a + b)[1..] == a[1..] + b;
      SumAppend(a[1..], b);
    }
  }

  lemma SumZeros(n: nat)
    ensures Sum(Zeros(n)) == 0
  {
    if n > 0 {
      assert Zeros(n)[1..] == Zeros(n - 1);
      SumZeros(n - 1);
    }
  }

  /** The non-empty cells of `s`, in their original order (`s.filter(n => n !== 0)`). */
  function NonZero(s: seq<int>): (r: seq<int>)
    ensures |r| <= |s|
    ensures forall i :: 0 <= i < |r| ==> r[i] != 0
    ensures forall v :: v in r ==> v in s
    ensures Sum(r) == Sum(s)
  {
    if |s| == 0 then []
    else if s[0] != 0 then [s[0]] + NonZero(s[1..])
    else NonZero(s[1..])
  }

  /** A line is packed when every empty cell comes after every non-empty one. */
  predicate Packed(s: seq<int>) {
    forall i, j :: 0 <= i < j < |s| && s[i] == 0 ==> s[j] == 0
  }

  lemma {:induction false} NonZeroAppend(a: seq<int>, b: seq<int>)
    ensures NonZero(a + b) == NonZero(a) + NonZero(b)
  {
    if |a| == 0 {
      assert a + b == b;
    } else {
      assert (a + b)[1..] == a[1..] + b;
      NonZeroAppend(a[1..], b);
    }
  }

  lemma {:induction false} NonZeroOfZeros(n: nat)
    ensures NonZero(Zeros(n)) == []
  {
    if n > 0 {
      assert Zeros(n)[1..] == Zeros(n - 1);
      NonZeroOfZeros(n - 1);
    }
  }

  /** A line without empty cells is its own list of non-empty cells. */
  lemma {:induction false} NonZeroOfFull(s: seq<int>)
    requires forall i :: 0 <= i < |s| ==> s[i] != 0
    ensures NonZero(s) == s
  {
    if |s| > 0 {
      NonZeroOfFull(s[1..]);
    }
  }

  /** Padding non-empty cells with empty ones on the right gives a packed line that
      keeps exactly those cells. */
  lemma PadPacked(s: seq<int>, n: nat)
    requires forall i :: 0 <= i < |s| ==> s[i] != 0
    ensures Packed(s + Zeros(n))
    ensures NonZero(s + Zeros(n)) == s
  {
    NonZeroAppend(s, Zeros(n));
    NonZeroOfZeros(n);
    NonZeroOfFull(s);
  }

  /** A packed line is its non-empty cells followed by empty ones. */
  lemma {:induction false} PackedSplit(s: seq<int>)
    requires Packed(s)
    ensures s == NonZero(s) + Zeros(|s| - |NonZero(s)|)
  {
    if |s| > 0 {
      if s[0] == 0 {
        assert forall j :: 0 <= j < |s| ==> s[j] == 0;
        assert s == Zeros(|s|);
        NonZeroOfZeros(|s|);
      } else {
        PackedSplit(s[1..]);
        assert s == [s[0]] + s[1..];
      }
    }
  }
}

/** Draws of `Math.random()`. A draw is the fraction num/den in [0, 1); every
    computation on random numbers in the games is `Math.floor(draw * n)` or a
    comparison `draw < p/q`, and both are exact on fractions. */
module Chance {

  datatype Draw = Draw(num: nat, den: nat)

  predicate Valid(u: Draw) {
    u.num < u.den
  }

  /** `Math.floor(u * n)`: the index that the draw picks out of `n` choices. */
  function Scale(u: Draw, n: nat): (i: nat)
    requires Valid(u)
    ensures i * u.den <= u.num * n < (i + 1) * u.den
    ensures n > 0 ==> i < n
  {
    var i := u.num * n / u.den;
    ScaleBound(u.num, u.den, n, i);
    i
  }

  lemma ScaleBound(num: nat, den: nat, n: nat, i: nat)
    requires num < den && i == num * n / den
    ensures i * den <= num * n < (i + 1) * den
    ensures n > 0 ==> i < n
  {
    assert num * n == i * den + num * n % den;
    if n > 0 {
      assert num * n < den * n;
      assert i * den < n * den;
    }
  }

  /** `u < p / q` for the draw `u`. */
  predicate Below(u: Draw, p: nat, q: nat) {
    u.num * q < p * u.den
  }

  /** Every one of `n` choices is picked by some draw. */
  lemma ScaleOnto(n: nat, i: nat)
    requires i < n
    ensures Valid(Draw(i, n)) && Scale(Draw(i, n), n) == i
  {
    var u := Draw(i, n);
    assert u.num * n == i * n;
  }
}
