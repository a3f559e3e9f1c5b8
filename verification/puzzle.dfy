/** The 2048 puzzle: a 4×4 board of tiles. Every move direction is turned into
    "slide left" by rotating the board clockwise, sliding and merging each row,
    and rotating back. */
module Puzzle {
  import opened Grid
  import opened Chance

  const SIZE: nat := 4

  /** A 4×4 board. */
  predicate IsBoard(b: Board) {
    IsRect(b, SIZE, SIZE)
  }

  /** The values a tile can take: 2, 4, 8, 16, ... */
  predicate IsTile(v: int)
    decreases if v < 0 then 0 else v
  {
    v == 2 || (v > 2 && v % 2 == 0 && IsTile(v / 2))
  }

  /** Every cell is empty or holds a tile. */
  predicate TilesOnly(s: seq<int>) {
    forall i :: 0 <= i < |s| ==> s[i] == 0 || IsTile(s[i])
  }

  // ---------------------------------------------------------------------------
  // Sliding one line

  /** A slid line and the score it earned. */
  datatype Slide = Slide(line: seq<int>, gain: int)

  /** Two adjacent equal tiles among `nums`. */
  predicate HasPair(nums: seq<int>) {
    exists i :: 0 <= i < |nums| - 1 && nums[i] != 0 && nums[i] == nums[i + 1]
  }

  /** One left-to-right pass over packed tiles: an equal adjacent pair becomes one
      tile of twice the value, the doubled value is added to the gain, and the pass
      resumes AFTER the pair, so no tile merges twice. */
  function MergePass(nums: seq<int>): (r: Slide)
    ensures Sum(r.line) == Sum(nums)
    ensures |r.line| <= |nums| <= 2 * |r.line|
    ensures (forall i :: 0 <= i < |nums| ==> nums[i] != 0) ==> forall i :: 0 <= i < |r.line| ==> r.line[i] != 0
    ensures TilesOnly(nums) ==> TilesOnly(r.line) && r.gain >= 0
  {
    if |nums| < 2 then Slide(nums, 0)
    else if nums[0] != 0 && nums[0] == nums[1] then
      var rest := MergePass(nums[2..]);
      PairStep(nums, rest);
      Slide([2 * nums[0]] + rest.line, 2 * nums[0] + rest.gain)
    else
      var rest := MergePass(nums[1..]);
      KeepStep(nums, rest);
      Slide([nums[0]] + rest.line, rest.gain)
  }

  /** What one pass promises about its result `r` on input `nums`. */
  predicate PassFacts(nums: seq<int>, r: Slide) {
    && Sum(r.line) == Sum(nums)
    && |r.line| <= |nums| <= 2 * |r.line|
    && ((forall i :: 0 <= i < |nums| ==> nums[i] != 0) ==> forall i :: 0 <= i < |r.line| ==> r.line[i] != 0)
    && (TilesOnly(nums) ==> TilesOnly(r.line) && r.gain >= 0)
  }

  /** Merging the leading pair in front of the rest of the pass keeps its promises. */
  lemma PairStep(nums: seq<int>, rest: Slide)
    requires |nums| >= 2 && nums[0] != 0 && nums[0] == nums[1] && PassFacts(nums[2..], rest)
    ensures PassFacts(nums, Slide([2 * nums[0]] + rest.line, 2 * nums[0] + rest.gain))
  {
    var line := [2 * nums[0]] + rest.line;
    assert line[1..] == rest.line;
    assert nums[1..][1..] == nums[2..];
    assert IsTile(nums[0]) ==> IsTile(2 * nums[0]) by {
      assert (2 * nums[0]) / 2 == nums[0];
    }
    if TilesOnly(nums) {
      assert nums[0] == 0 || IsTile(nums[0]);
      assert TilesOnly(nums[2..]) by {
        forall i | 0 <= i < |nums[2..]|
          ensures nums[2..][i] == 0 || IsTile(nums[2..][i])
        {
          assert nums[2..][i] == nums[i + 2];
        }
      }
      assert IsTile(line[0]);
      forall i | 0 <= i < |line|
        ensures line[i] == 0 || IsTile(line[i])
      {
        if i > 0 {
          assert line[i] == rest.line[i - 1];
        }
      }
      assert rest.gain >= 0 && nums[0] > 0;
    }
    if forall i :: 0 <= i < |nums| ==> nums[i] != 0 {
      assert forall i :: 0 <= i < |nums[2..]| ==> nums[2..][i] != 0 by {
        forall i | 0 <= i < |nums[2..]|
          ensures nums[2..][i] != 0
        {
          assert nums[2..][i] == nums[i + 2];
        }
      }
      forall i | 0 <= i < |line|
        ensures line[i] != 0
      {
        if i > 0 {
          assert line[i] == rest.line[i - 1];
        }
      }
    }
    assert Sum(line) == Sum(nums);
  }

  /** Keeping the leading tile in front of the rest of the pass keeps its promises. */
  lemma KeepStep(nums: seq<int>, rest: Slide)
    requires |nums| >= 1 && PassFacts(nums[1..], rest)
    ensures PassFacts(nums, Slide([nums[0]] + rest.line, rest.gain))
  {
    var line := [nums[0]] + rest.line;
    assert line[1..] == rest.line;
    if TilesOnly(nums) {
      assert TilesOnly(nums[1..]) by {
        forall i | 0 <= i < |nums[1..]|
          ensures nums[1..][i] == 0 || IsTile(nums[1..][i])
        {
          assert nums[1..][i] == nums[i + 1];
        }
      }
    }
  }

  /** What the first `n` cells of `after` gained over `before`: the sum of the cells
      whose value changed. After the merge loop these are the doubled tiles and the
      emptied partners, so this is the sum of the newly doubled tiles. */
  function Gained(before: seq<int>, after: seq<int>, n: nat): int
    requires n <= |before| && n <= |after|
  {
    if n == 0 then 0
    else Gained(before, after, n - 1) + (if after[n - 1] != before[n - 1] then after[n - 1] else 0)
  }

  lemma {:induction false} GainedFrame(before: seq<int>, a: seq<int>, a': seq<int>, n: nat)
    requires n <= |before| && n <= |a| && n <= |a'| && a[..n] == a'[..n]
    ensures Gained(before, a, n) == Gained(before, a', n)
  {
    if n > 0 {
      assert a[..n - 1] == a[..n][..n - 1] && a'[..n - 1] == a'[..n][..n - 1];
      assert a[n - 1] == a[..n][n - 1] && a'[n - 1] == a'[..n][n - 1];
      GainedFrame(before, a, a', n - 1);
    }
  }

  /** The merge loop of `slideAndMerge` as the source runs it, in place on the packed
      tiles: a pair doubles its left tile, empties its right one, adds the doubled
      value to the gain and skips past the pair. Compacting its result gives the pass
      above, and the gain is exactly the sum of the doubled tiles. */
  method MergeInPlace(nums: seq<int>) returns (arr: seq<int>, gain: int)
    requires forall i :: 0 <= i < |nums| ==> nums[i] != 0
    ensures |arr| == |nums|
    ensures NonZero(arr) == MergePass(nums).line
    ensures gain == MergePass(nums).gain
    ensures gain == Gained(nums, arr, |arr|)
  {
    arr := nums;
    gain := 0;
    var i := 0;
    MergeLoopStart(nums);
    while i < |nums| - 1
      invariant MergeLoopInv(nums, arr, i, gain)
      decreases |nums| - i
    {
      if arr[i] != 0 && arr[i] == arr[i + 1] {
        var a' := arr[i := 2 * arr[i]][i + 1 := 0];
        MergeKeepsLoopInv(nums, arr, a', i, gain);
        gain := gain + 2 * arr[i];
        arr := a';
        i := i + 2;
      } else {
        KeepKeepsLoopInv(nums, arr, i, gain);
        i := i + 1;
      }
    }
    MergeLoopDone(nums, arr, i, gain);
  }

  /** The loop invariant of the merge loop: the cells from `i` on are untouched, and the
      compacted prefix and its gain, followed by the pass over the rest, give the pass
      over all tiles. */
  predicate MergeLoopInv(nums: seq<int>, arr: seq<int>, i: int, gain: int) {
    && 0 <= i <= |nums|
    && |arr| == |nums|
    && arr[i..] == nums[i..]
    && NonZero(arr[..i]) + MergePass(nums[i..]).line == MergePass(nums).line
    && gain + MergePass(nums[i..]).gain == MergePass(nums).gain
    && gain == Gained(nums, arr, i)
  }

  lemma MergeKeepsLoopInv(nums: seq<int>, arr: seq<int>, a': seq<int>, i: int, gain: int)
    requires MergeLoopInv(nums, arr, i, gain) && i < |nums| - 1
    requires arr[i] != 0 && arr[i] == arr[i + 1]
    requires a' == arr[i := 2 * arr[i]][i + 1 := 0]
    ensures MergeLoopInv(nums, a', i + 2, gain + 2 * arr[i])
  {
    LoopCells(nums, arr, i);
    MergeStepInPlace(nums, arr, a', i);
    Reassociate(NonZero(arr[..i]), NonZero(a'[..i + 2]), [2 * nums[i]], MergePass(nums[i + 2..]).line, MergePass(nums).line);
  }

  lemma KeepKeepsLoopInv(nums: seq<int>, arr: seq<int>, i: int, gain: int)
    requires MergeLoopInv(nums, arr, i, gain) && i < |nums| - 1
    requires nums[i] != 0 && !(arr[i] != 0 && arr[i] == arr[i + 1])
    ensures MergeLoopInv(nums, arr, i + 1, gain)
  {
    LoopCells(nums, arr, i);
    KeepStepInPlace(nums, arr, i);
    Reassociate(NonZero(arr[..i]), NonZero(arr[..i + 1]), [nums[i]], MergePass(nums[i + 1..]).line, MergePass(nums).line);
  }

  lemma MergeLoopStart(nums: seq<int>)
    ensures MergeLoopInv(nums, nums, 0, 0)
  {
    assert nums[0..] == nums && nums[..0] == [];
  }

  /** The two cells the loop compares are still the input's. */
  lemma LoopCells(nums: seq<int>, arr: seq<int>, i: int)
    requires 0 <= i < |nums| - 1 && |arr| == |nums| && arr[i..] == nums[i..]
    ensures arr[i] == nums[i] && arr[i + 1] == nums[i + 1]
  {
    assert arr[i..][0] == arr[i] && arr[i..][1] == arr[i + 1];
  }

  /** When the loop stops, the invariant gives the method's promises. */
  lemma MergeLoopDone(nums: seq<int>, arr: seq<int>, i: int, gain: int)
    requires forall k :: 0 <= k < |nums| ==> nums[k] != 0
    requires MergeLoopInv(nums, arr, i, gain) && i >= |nums| - 1
    ensures |arr| == |nums|
    ensures NonZero(arr) == MergePass(nums).line
    ensures gain == MergePass(nums).gain
    ensures gain == Gained(nums, arr, |arr|)
  {
    MergeLoopExit(nums, arr, i);
    Reassociate(NonZero(arr[..i]), NonZero(arr[..i]) + nums[i..], nums[i..], [], MergePass(nums).line);
    assert NonZero(arr[..i]) + nums[i..] + [] == NonZero(arr[..i]) + nums[i..];
  }

  /** Moving the next piece `x` from the rest onto the finished prefix. */
  lemma Reassociate(p: seq<int>, p': seq<int>, x: seq<int>, rest: seq<int>, whole: seq<int>)
    requires p + (x + rest) == whole && p' == p + x
    ensures p' + rest == whole
  {
    assert p' + rest == p + (x + rest);
  }

  lemma MergeStepInPlace(nums: seq<int>, arr: seq<int>, a': seq<int>, i: int)
    requires 0 <= i < |nums| - 1 && |arr| == |nums| && arr[i..] == nums[i..]
    requires nums[i] != 0 && nums[i] == nums[i + 1]
    requires a' == arr[i := 2 * nums[i]][i + 1 := 0]
    ensures a'[i + 2..] == nums[i + 2..]
    ensures NonZero(a'[..i + 2]) == NonZero(arr[..i]) + [2 * nums[i]]
    ensures MergePass(nums[i..]) == Slide([2 * nums[i]] + MergePass(nums[i + 2..]).line, 2 * nums[i] + MergePass(nums[i + 2..]).gain)
    ensures Gained(nums, a', i + 2) == Gained(nums, arr, i) + 2 * nums[i]
  {
    MergedCells(nums, arr, a', i);
    MergedPrefix(arr, a', i, 2 * nums[i]);
    assert nums[i..][2..] == nums[i + 2..];
    GainedFrame(nums, arr, a', i);
  }

  lemma MergedCells(nums: seq<int>, arr: seq<int>, a': seq<int>, i: int)
    requires 0 <= i < |nums| - 1 && |arr| == |nums| && arr[i..] == nums[i..]
    requires a' == arr[i := 2 * nums[i]][i + 1 := 0]
    ensures a'[i + 2..] == nums[i + 2..] && a'[..i] == arr[..i]
  {
    assert forall k :: i + 2 <= k < |nums| ==> arr[k] == arr[i..][k - i];
  }

  lemma MergedPrefix(arr: seq<int>, a': seq<int>, i: int, v: int)
    requires 0 <= i < |arr| - 1 && v != 0 && a' == arr[i := v][i + 1 := 0]
    ensures NonZero(a'[..i + 2]) == NonZero(arr[..i]) + [v]
  {
    assert a'[..i + 2] == arr[..i] + [v, 0];
    NonZeroAppend(arr[..i], [v, 0]);
    assert NonZero([v, 0]) == [v];
  }

  lemma KeepStepInPlace(nums: seq<int>, arr: seq<int>, i: int)
    requires 0 <= i < |nums| - 1 && |arr| == |nums| && arr[i..] == nums[i..]
    requires nums[i] != 0 && nums[i] != nums[i + 1]
    ensures arr[i + 1..] == nums[i + 1..]
    ensures NonZero(arr[..i + 1]) == NonZero(arr[..i]) + [nums[i]]
    ensures MergePass(nums[i..]) == Slide([nums[i]] + MergePass(nums[i + 1..]).line, MergePass(nums[i + 1..]).gain)
    ensures Gained(nums, arr, i + 1) == Gained(nums, arr, i)
  {
    assert arr[i] == arr[i..][0];
    assert arr[i + 1..] == arr[i..][1..];
    assert arr[..i + 1] == arr[..i] + [nums[i]];
    NonZeroAppend(arr[..i], [nums[i]]);
    assert NonZero([nums[i]]) == [nums[i]];
    assert nums[i..][1..] == nums[i + 1..];
  }

  lemma MergeLoopExit(nums: seq<int>, arr: seq<int>, i: int)
    requires forall k :: 0 <= k < |nums| ==> nums[k] != 0
    requires 0 <= i <= |nums| && i >= |nums| - 1 && |arr| == |nums| && arr[i..] == nums[i..]
    ensures MergePass(nums[i..]) == Slide(nums[i..], 0)
    ensures NonZero(arr) == NonZero(arr[..i]) + nums[i..]
    ensures Gained(nums, arr, |arr|) == Gained(nums, arr, i)
  {
    ShortPass(nums[i..]);
    TailCompacts(nums, arr, i);
    UnchangedTail(nums, arr, i);
  }

  /** Fewer than two tiles cannot merge. */
  lemma ShortPass(s: seq<int>)
    requires |s| < 2
    ensures MergePass(s) == Slide(s, 0)
  {
  }

  /** Cells past `i` that kept their value add nothing to the gain. */
  lemma UnchangedTail(nums: seq<int>, arr: seq<int>, i: int)
    requires 0 <= i <= |nums| && i >= |nums| - 1 && |arr| == |nums| && arr[i..] == nums[i..]
    ensures Gained(nums, arr, |arr|) == Gained(nums, arr, i)
  {
    if i < |arr| {
      assert arr[i] == arr[i..][0] == nums[i];
    }
  }

  lemma TailCompacts(nums: seq<int>, arr: seq<int>, i: int)
    requires forall k :: 0 <= k < |nums| ==> nums[k] != 0
    requires 0 <= i <= |nums| && |arr| == |nums| && arr[i..] == nums[i..]
    ensures NonZero(arr) == NonZero(arr[..i]) + nums[i..]
  {
    assert arr == arr[..i] + arr[i..];
    NonZeroAppend(arr[..i], arr[i..]);
    NonZeroOfFull(nums[i..]);
  }


  /** `slideAndMerge`: drop the empty cells, merge pairs once, and pad with empty
      cells on the right up to the board width. */
  function SlideAndMerge(line: seq<int>): (r: Slide)
    ensures |line| <= SIZE ==> |r.line| == SIZE
    ensures Packed(r.line)
    ensures Sum(r.line) == Sum(line)
    ensures TilesOnly(line) ==> TilesOnly(r.line) && r.gain >= 0
  {
    var merged := MergePass(NonZero(line));
    var result := NonZero(merged.line);
    NonZeroOfFull(merged.line);
    var pad := if |result| < SIZE then SIZE - |result| else 0;
    PadPacked(result, pad);
    SumAppend(result, Zeros(pad));
    SumZeros(pad);
    TilesOnlyNonZero(line);
    Slide(PadRight(result), merged.gain)
  }

  lemma TilesOnlyNonZero(line: seq<int>)
    ensures TilesOnly(line) ==> TilesOnly(NonZero(line))
  {
    if TilesOnly(line) {
      var nz := NonZero(line);
      forall i | 0 <= i < |nz|
        ensures IsTile(nz[i])
      {
        assert nz[i] in line;
      }
    }
  }

  /** `while (result.length < SIZE) result.push(0)`. */
  function PadRight(s: seq<int>): (r: seq<int>)
    ensures r == s + Zeros(if |s| < SIZE then SIZE - |s| else 0)
  {
    if |s| < SIZE then s + Zeros(SIZE - |s|) else s
  }

  /** A pass without adjacent equal tiles changes nothing and scores nothing. */
  lemma {:induction false} MergePassIdle(nums: seq<int>)
    requires !HasPair(nums)
    ensures MergePass(nums) == Slide(nums, 0)
  {
    if |nums| >= 2 {
      assert !(nums[0] != 0 && nums[0] == nums[1]);
      assert !HasPair(nums[1..]);
      MergePassIdle(nums[1..]);
      assert [nums[0]] + nums[1..] == nums;
    }
  }

  /** The pass loses a tile exactly when two adjacent tiles are equal. */
  lemma {:induction false} MergePassShrinksIffPair(nums: seq<int>)
    ensures |MergePass(nums).line| < |nums| <==> HasPair(nums)
  {
    if |nums| < 2 {
    } else if nums[0] != 0 && nums[0] == nums[1] {
      assert HasPair(nums) by { assert nums[0] != 0 && nums[0] == nums[0 + 1]; }
    } else {
      MergePassShrinksIffPair(nums[1..]);
      if HasPair(nums) {
        var i :| 0 <= i < |nums| - 1 && nums[i] != 0 && nums[i] == nums[i + 1];
        assert i > 0;
        assert nums[1..][i - 1] != 0 && nums[1..][i - 1] == nums[1..][i];
      }
      if HasPair(nums[1..]) {
        var i :| 0 <= i < |nums[1..]| - 1 && nums[1..][i] != 0 && nums[1..][i] == nums[1..][i + 1];
        assert nums[i + 1] != 0 && nums[i + 1] == nums[i + 2];
      }
    }
  }

  /** On tiles, the pass scores exactly when it merges: the gain is positive iff
      two adjacent tiles are equal. */
  lemma {:induction false} GainIffMerge(nums: seq<int>)
    requires forall i :: 0 <= i < |nums| ==> nums[i] > 0
    ensures MergePass(nums).gain > 0 <==> HasPair(nums)
    ensures MergePass(nums).gain >= 0
  {
    if |nums| < 2 {
    } else if nums[0] != 0 && nums[0] == nums[1] {
      GainIffMerge(nums[2..]);
      assert HasPair(nums) by { assert nums[0] != 0 && nums[0] == nums[0 + 1]; }
    } else {
      GainIffMerge(nums[1..]);
      if HasPair(nums) {
        var i :| 0 <= i < |nums| - 1 && nums[i] != 0 && nums[i] == nums[i + 1];
        assert i > 0;
        assert nums[1..][i - 1] != 0 && nums[1..][i - 1] == nums[1..][i];
      }
      if HasPair(nums[1..]) {
        var i :| 0 <= i < |nums[1..]| - 1 && nums[1..][i] != 0 && nums[1..][i] == nums[1..][i + 1];
        assert nums[i + 1] != 0 && nums[i + 1] == nums[i + 2];
      }
    }
  }

  /** `k` copies of `v`. */
  function Repeat(v: int, k: nat): (s: seq<int>)
    ensures |s| == k && forall i :: 0 <= i < k ==> s[i] == v
  {
    seq(k, _ => v)
  }

  /** A run of `k` equal tiles `v` merges pairwise from the left, never twice:
      it becomes k/2 tiles `2v` (and one `v` left over when k is odd), and scores
      `2v` per pair. */
  lemma {:induction false} MergePassUniform(v: int, k: nat)
    requires v != 0
    ensures MergePass(Repeat(v, k)) == Slide(Repeat(2 * v, k / 2) + Repeat(v, k % 2), (k / 2) * (2 * v))
  {
    if k >= 2 {
      var nums := Repeat(v, k);
      assert nums[0] == v && nums[1] == v;
      assert nums[2..] == Repeat(v, k - 2);
      MergePassUniform(v, k - 2);
      var rest := MergePass(Repeat(v, k - 2));
      assert MergePass(nums) == Slide([2 * v] + rest.line, 2 * v + rest.gain);
      UniformStep(v, k, rest);
    } else {
      assert Repeat(2 * v, 0) + Repeat(v, k % 2) == Repeat(v, k);
    }
  }

  /** One merged pair in front of the merged rest of the run. */
  lemma UniformStep(v: int, k: nat, rest: Slide)
    requires k >= 2
    requires rest == Slide(Repeat(2 * v, (k - 2) / 2) + Repeat(v, (k - 2) % 2), ((k - 2) / 2) * (2 * v))
    ensures Slide([2 * v] + rest.line, 2 * v + rest.gain) == Slide(Repeat(2 * v, k / 2) + Repeat(v, k % 2), (k / 2) * (2 * v))
  {
    var h := (k - 2) / 2;
    HalfStep(k);
    MulSucc(h, 2 * v);
    var twos := Repeat(2 * v, h);
    var odd := Repeat(v, k % 2);
    RepeatCons(2 * v, h);
    assert [2 * v] + (twos + odd) == ([2 * v] + twos) + odd;
  }

  lemma HalfStep(k: nat)
    requires k >= 2
    ensures k / 2 == (k - 2) / 2 + 1 && k % 2 == (k - 2) % 2
  {
  }

  lemma RepeatCons(v: int, n: nat)
    ensures [v] + Repeat(v, n) == Repeat(v, n + 1)
  {
  }

  lemma MulSucc(h: int, w: int)
    ensures (h + 1) * w == h * w + w
  {
  }

  /** `[2,2,2,2]` slides to `[4,4,0,0]` and scores 8: the first 4 does not merge again. */
  lemma SlideFourEqual()
    ensures SlideAndMerge([2, 2, 2, 2]) == Slide([4, 4, 0, 0], 8)
  {
    assert NonZero([2, 2, 2, 2]) == [2, 2, 2, 2];
    MergePassUniform(2, 4);
    assert Repeat(2, 4) == [2, 2, 2, 2];
    assert Repeat(4, 2) + Repeat(2, 0) == [4, 4];
    assert NonZero([4, 4]) == [4, 4];
  }

  /** `[2,2,0,0]` slides to `[4,0,0,0]` and scores 4. */
  lemma SlideOnePair()
    ensures SlideAndMerge([2, 2, 0, 0]) == Slide([4, 0, 0, 0], 4)
  {
    assert NonZero([2, 2, 0, 0]) == [2, 2];
    MergePassUniform(2, 2);
    assert Repeat(2, 2) == [2, 2];
    assert Repeat(4, 1) + Repeat(2, 0) == [4];
    assert NonZero([4]) == [4];
  }

  /** `[2,2,2,0]` slides to `[4,2,0,0]`: the leftmost pair merges first. */
  lemma SlideThreeEqual()
    ensures SlideAndMerge([2, 2, 2, 0]) == Slide([4, 2, 0, 0], 4)
  {
    assert NonZero([2, 2, 2, 0]) == [2, 2, 2];
    MergePassUniform(2, 3);
    assert Repeat(2, 3) == [2, 2, 2];
    assert Repeat(4, 1) + Repeat(2, 1) == [4, 2];
    assert NonZero([4, 2]) == [4, 2];
  }

  /** Sliding leaves a line of the board width unchanged exactly when it is already
      packed to the left and no two adjacent tiles are equal. */
  lemma SlideIdleIff(line: seq<int>)
    requires |line| == SIZE
    ensures SlideAndMerge(line).line == line <==> Packed(line) && !HasPair(NonZero(line))
  {
    if Packed(line) && !HasPair(NonZero(line)) {
      PackedLineIdle(line);
    }
    if HasPair(NonZero(line)) {
      PairLineMoves(line);
    }
  }

  lemma PackedLineIdle(line: seq<int>)
    requires |line| == SIZE && Packed(line) && !HasPair(NonZero(line))
    ensures SlideAndMerge(line).line == line
  {
    var nz := NonZero(line);
    MergePassIdle(nz);
    NonZeroOfFull(nz);
    PackedSplit(line);
  }

  lemma PairLineMoves(line: seq<int>)
    requires |line| == SIZE && HasPair(NonZero(line))
    ensures NonZero(SlideAndMerge(line).line) != NonZero(line)
  {
    SlideKeepsMerged(line);
    MergePassShrinksIffPair(NonZero(line));
  }

  /** The tiles of a slid line are exactly the tiles the merge pass leaves, in order:
      sliding adds only empty cells on the right. */
  lemma SlideKeepsMerged(line: seq<int>)
    ensures NonZero(SlideAndMerge(line).line) == MergePass(NonZero(line)).line
  {
    var merged := MergePass(NonZero(line)).line;
    NonZeroOfFull(merged);
    PadPacked(merged, if |merged| < SIZE then SIZE - |merged| else 0);
  }

  // ---------------------------------------------------------------------------
  // Rotations

  /** `rotateBoard`: a quarter turn clockwise, cell (y, x) moving to (x, 3 - y). */
  function Rotate(b: Board): (r: Board)
    requires IsBoard(b)
    ensures IsBoard(r)
    ensures forall y, x :: 0 <= y < SIZE && 0 <= x < SIZE ==> r[x][SIZE - 1 - y] == b[y][x]
  {
    seq(SIZE, i requires 0 <= i < SIZE => seq(SIZE, j requires 0 <= j < SIZE => b[SIZE - 1 - j][i]))
  }

  /** `n` quarter turns clockwise. */
  function RotateN(b: Board, n: nat): (r: Board)
    requires IsBoard(b)
    ensures IsBoard(r)
    decreases n
  {
    if n == 0 then b else RotateN(Rotate(b), n - 1)
  }

  /** Four quarter turns give back the board. */
  lemma FourRotations(b: Board)
    requires IsBoard(b)
    ensures RotateN(b, 4) == b
  {
    var r1 := Rotate(b);
    var r2 := Rotate(r1);
    var r3 := Rotate(r2);
    var r4 := Rotate(r3);
    assert RotateN(b, 4) == r4;
    forall i | 0 <= i < SIZE
      ensures r4[i] == b[i]
    {
      forall j | 0 <= j < SIZE
        ensures r4[i][j] == b[i][j]
      {
        assert r4[i][j] == r3[SIZE - 1 - j][i];
        assert r3[SIZE - 1 - j][i] == r2[SIZE - 1 - i][SIZE - 1 - j];
        assert r2[SIZE - 1 - i][SIZE - 1 - j] == r1[j][SIZE - 1 - i];
        assert r1[j][SIZE - 1 - i] == b[i][j];
      }
    }
  }

  lemma {:induction false} RotateNAdd(b: Board, m: nat, n: nat)
    requires IsBoard(b)
    ensures RotateN(RotateN(b, m), n) == RotateN(b, m + n)
    decreases m
  {
    if m > 0 {
      RotateNAdd(Rotate(b), m - 1, n);
    }
  }

  /** Turning `k` times and then `(4 - k) % 4` times, as `move` does, is the identity. */
  lemma RotateBack(b: Board, k: nat)
    requires IsBoard(b) && k < 4
    ensures RotateN(RotateN(b, k), (4 - k) % 4) == b
  {
    if k == 0 {
      assert (4 - k) % 4 == 0;
      assert RotateN(b, 0) == b;
    } else {
      var m := 4 - k;
      assert (4 - k) % 4 == m;
      RotateNAdd(b, k, m);
      assert k + m == 4;
      FourRotations(b);
    }
  }

  // ---------------------------------------------------------------------------
  // Moves

  datatype MoveResult = MoveResult(board: Board, moved: bool, gain: int)

  /** Clockwise quarter turns that make `dir` (0 left, 1 up, 2 right, 3 down) the
      "left" direction. */
  function Turns(dir: int): nat
    requires 0 <= dir < 4
  {
    [0, 3, 2, 1][dir]
  }

  /** Every row slid to the left. */
  function SlideRows(b: Board): (r: Board)
    requires IsBoard(b)
    ensures IsBoard(r)
    ensures forall y :: 0 <= y < SIZE ==> r[y] == SlideAndMerge(b[y]).line
    ensures forall y :: 0 <= y < SIZE ==> Packed(r[y]) && Sum(r[y]) == Sum(b[y])
    ensures forall y :: 0 <= y < SIZE && TilesOnly(b[y]) ==> TilesOnly(r[y])
  {
    seq(SIZE, y requires 0 <= y < SIZE => SlideAndMerge(b[y]).line)
  }

  /** The score earned by sliding the first `n` rows. */
  function RowGains(b: Board, n: nat): int
    requires IsBoard(b) && n <= SIZE
  {
    if n == 0 then 0 else RowGains(b, n - 1) + SlideAndMerge(b[n - 1]).gain
  }

  /** Some cell differs between two boards (`line.some((v, idx) => v !== b[y][idx])`
      over all rows). */
  predicate Differs(a: Board, b: Board)
    requires IsBoard(a) && IsBoard(b)
  {
    exists y, x :: 0 <= y < SIZE && 0 <= x < SIZE && a[y][x] != b[y][x]
  }

  /** `move(board, dir)`. */
  function Move(board: Board, dir: int): (r: MoveResult)
    requires IsBoard(board) && 0 <= dir < 4
    ensures IsBoard(r.board)
  {
    var turned := RotateN(board, Turns(dir));
    var slid := SlideRows(turned);
    MoveResult(RotateN(slid, (4 - Turns(dir)) % 4), Differs(slid, turned), RowGains(turned, SIZE))
  }

  lemma DiffersIff(a: Board, b: Board)
    requires IsBoard(a) && IsBoard(b)
    ensures Differs(a, b) <==> a != b
  {
    if !Differs(a, b) {
      forall y | 0 <= y < SIZE
        ensures a[y] == b[y]
      {
      }
    }
  }

  /** `n` turns and their undoing: two boards that agree after the same turns agree. */
  lemma RotateNInjective(a: Board, b: Board, k: nat)
    requires IsBoard(a) && IsBoard(b) && k < 4
    requires RotateN(a, (4 - k) % 4) == RotateN(b, (4 - k) % 4)
    ensures a == b
  {
    var m := (4 - k) % 4;
    RotateBack(a, m);
    RotateBack(b, m);
    assert (4 - m) % 4 == k;
  }

  /** `moved` is false exactly when the move leaves the board as it was. */
  lemma MovedIffChanged(board: Board, dir: int)
    requires IsBoard(board) && 0 <= dir < 4
    ensures Move(board, dir).moved <==> Move(board, dir).board != board
  {
    var k := Turns(dir);
    var turned := RotateN(board, k);
    var slid := SlideRows(turned);
    DiffersIff(slid, turned);
    RotateBack(board, k);
    if Move(board, dir).board == board {
      RotateNInjective(slid, turned, k);
    }
  }

  /** The sum of all tiles. */
  function BoardSum(b: Board): int {
    if |b| == 0 then 0 else Sum(b[0]) + BoardSum(b[1..])
  }

  lemma Sum4(s: seq<int>)
    requires |s| == 4
    ensures Sum(s) == s[0] + s[1] + s[2] + s[3]
  {
    assert s[1..][1..] == s[2..];
    assert s[2..][1..] == s[3..];
    assert s[3..][1..] == [];
    assert Sum(s[3..]) == s[3];
    assert Sum(s[2..]) == s[2] + s[3];
    assert Sum(s[1..]) == s[1] + s[2] + s[3];
  }

  lemma BoardSum4(b: Board)
    requires IsBoard(b)
    ensures BoardSum(b) == Sum(b[0]) + Sum(b[1]) + Sum(b[2]) + Sum(b[3])
  {
    assert b[1..][1..] == b[2..];
    assert b[2..][1..] == b[3..];
    assert b[3..][1..] == [];
    assert BoardSum(b[3..]) == Sum(b[3]);
    assert BoardSum(b[2..]) == Sum(b[2]) + Sum(b[3]);
    assert BoardSum(b[1..]) == Sum(b[1]) + Sum(b[2]) + Sum(b[3]);
  }

  /** A quarter turn moves tiles without changing their total. */
  lemma RotateKeepsSum(b: Board)
    requires IsBoard(b)
    ensures BoardSum(Rotate(b)) == BoardSum(b)
  {
    var r := Rotate(b);
    BoardSum4(b);
    BoardSum4(r);
    forall y | 0 <= y < SIZE
      ensures Sum(b[y]) == b[y][0] + b[y][1] + b[y][2] + b[y][3]
      ensures Sum(r[y]) == r[y][0] + r[y][1] + r[y][2] + r[y][3]
    {
      Sum4(b[y]);
      Sum4(r[y]);
    }
  }

  lemma {:induction false} RotateNKeepsSum(b: Board, n: nat)
    requires IsBoard(b)
    ensures BoardSum(RotateN(b, n)) == BoardSum(b)
    decreases n
  {
    if n > 0 {
      RotateKeepsSum(b);
      RotateNKeepsSum(Rotate(b), n - 1);
    }
  }

  /** A move never creates or destroys value: merging adds two tiles into one. */
  lemma MoveKeepsSum(board: Board, dir: int)
    requires IsBoard(board) && 0 <= dir < 4
    ensures BoardSum(Move(board, dir).board) == BoardSum(board)
  {
    var turned := RotateN(board, Turns(dir));
    var slid := SlideRows(turned);
    RotateNKeepsSum(board, Turns(dir));
    RotateNKeepsSum(slid, (4 - Turns(dir)) % 4);
    BoardSum4(turned);
    BoardSum4(slid);
  }

  // ---------------------------------------------------------------------------
  // Game over detection

  /** Cell (y, x) is empty or equals its right or lower neighbour. */
  predicate OpenAt(b: Board, y: int, x: int)
    requires IsBoard(b) && 0 <= y < SIZE && 0 <= x < SIZE
  {
    || b[y][x] == 0
    || (x + 1 < SIZE && b[y][x] == b[y][x + 1])
    || (y + 1 < SIZE && b[y][x] == b[y + 1][x])
  }

  /** No empty cell and no two horizontally or vertically adjacent equal tiles. */
  predicate Stuck(b: Board)
    requires IsBoard(b)
  {
    forall y, x :: 0 <= y < SIZE && 0 <= x < SIZE ==> !OpenAt(b, y, x)
  }

  /** The scan of `hasMoves` from cell (y, x) on, in row-major order. */
  function ScanFrom(b: Board, y: nat, x: nat): (r: bool)
    requires IsBoard(b) && y <= SIZE && x <= SIZE
    ensures r <==> exists y', x' :: 0 <= y' < SIZE && 0 <= x' < SIZE && (y' > y || (y' == y && x' >= x)) && OpenAt(b, y', x')
    decreases SIZE - y, SIZE - x
  {
    if y == SIZE then false
    else if x == SIZE then ScanFrom(b, y + 1, 0)
    else if OpenAt(b, y, x) then true
    else ScanFrom(b, y, x + 1)
  }

  /** `hasMoves`: true iff some cell is empty or has an equal neighbour. */
  function HasMoves(b: Board): (r: bool)
    requires IsBoard(b)
    ensures r <==> !Stuck(b)
  {
    ScanFrom(b, 0, 0)
  }

  lemma RotateKeepsStuck(b: Board)
    requires IsBoard(b) && Stuck(b)
    ensures Stuck(Rotate(b))
  {
    var r := Rotate(b);
    forall i, j | 0 <= i < SIZE && 0 <= j < SIZE
      ensures !OpenAt(r, i, j)
    {
      assert r[i][j] == b[SIZE - 1 - j][i];
      assert !OpenAt(b, SIZE - 1 - j, i);
      if j + 1 < SIZE {
        assert r[i][j + 1] == b[SIZE - 1 - (j + 1)][i];
        assert !OpenAt(b, SIZE - 1 - (j + 1), i);
      }
      if i + 1 < SIZE {
        assert r[i + 1][j] == b[SIZE - 1 - j][i + 1];
      }
    }
  }

  lemma {:induction false} RotateNKeepsStuck(b: Board, n: nat)
    requires IsBoard(b) && Stuck(b)
    ensures Stuck(RotateN(b, n))
    decreases n
  {
    if n > 0 {
      RotateKeepsStuck(b);
      RotateNKeepsStuck(Rotate(b), n - 1);
    }
  }

  /** A row of a stuck board does not slide. */
  lemma StuckRowIdle(b: Board, y: int)
    requires IsBoard(b) && Stuck(b) && 0 <= y < SIZE
    ensures SlideAndMerge(b[y]).line == b[y]
  {
    var row := b[y];
    forall i | 0 <= i < SIZE
      ensures row[i] != 0
    {
      assert !OpenAt(b, y, i);
    }
    NonZeroOfFull(row);
    forall i | 0 <= i < SIZE - 1
      ensures row[i] != row[i + 1]
    {
      assert !OpenAt(b, y, i);
    }
    assert !HasPair(row);
    SlideIdleIff(row);
  }

  /** When `hasMoves` is false, no direction moves anything. */
  lemma StuckCannotMove(b: Board, dir: int)
    requires IsBoard(b) && !HasMoves(b) && 0 <= dir < 4
    ensures !Move(b, dir).moved
  {
    var turned := RotateN(b, Turns(dir));
    RotateNKeepsStuck(b, Turns(dir));
    var slid := SlideRows(turned);
    forall y | 0 <= y < SIZE
      ensures slid[y] == turned[y]
    {
      StuckRowIdle(turned, y);
    }
    assert slid == turned;
    DiffersIff(slid, turned);
  }

  /** Some cell is empty. */
  predicate HasRoom(b: Board)
    requires IsBoard(b)
  {
    exists y, x :: 0 <= y < SIZE && 0 <= x < SIZE && b[y][x] == 0
  }

  lemma {:induction false} RotateNKeepsRoom(b: Board, n: nat)
    requires IsBoard(b) && HasRoom(b)
    ensures HasRoom(RotateN(b, n))
    decreases n
  {
    if n > 0 {
      var y, x :| 0 <= y < SIZE && 0 <= x < SIZE && b[y][x] == 0;
      assert Rotate(b)[x][SIZE - 1 - y] == 0;
      RotateNKeepsRoom(Rotate(b), n - 1);
    }
  }

  /** A line that slides to a different line ends with an empty cell. */
  lemma SlidRowHasRoom(line: seq<int>)
    requires |line| == SIZE && SlideAndMerge(line).line != line
    ensures SlideAndMerge(line).line[SIZE - 1] == 0
  {
    var nz := NonZero(line);
    var merged := MergePass(nz);
    NonZeroOfFull(merged.line);
    SlideIdleIff(line);
    if !Packed(line) {
      var i, j :| 0 <= i < j < |line| && line[i] == 0 && line[j] != 0;
      ZeroShrinks(line, i);
    } else {
      MergePassShrinksIffPair(nz);
    }
  }

  /** A line with an empty cell has fewer non-empty cells than cells. */
  lemma {:induction false} ZeroShrinks(s: seq<int>, i: int)
    requires 0 <= i < |s| && s[i] == 0
    ensures |NonZero(s)| < |s|
  {
    if i > 0 {
      ZeroShrinks(s[1..], i - 1);
    }
  }

  /** A move that moved leaves an empty cell for the new tile. */
  lemma MovedLeavesRoom(board: Board, dir: int)
    requires IsBoard(board) && 0 <= dir < 4 && Move(board, dir).moved
    ensures HasRoom(Move(board, dir).board)
  {
    var turned := RotateN(board, Turns(dir));
    var slid := SlideRows(turned);
    var y, x :| 0 <= y < SIZE && 0 <= x < SIZE && slid[y][x] != turned[y][x];
    SlidRowHasRoom(turned[y]);
    assert slid[y][SIZE - 1] == 0;
    RotateNKeepsRoom(slid, (4 - Turns(dir)) % 4);
  }

  lemma RotateKeepsTiles(b: Board)
    requires IsBoard(b) && forall y :: 0 <= y < SIZE ==> TilesOnly(b[y])
    ensures forall y :: 0 <= y < SIZE ==> TilesOnly(Rotate(b)[y])
  {
    forall i, j | 0 <= i < SIZE && 0 <= j < SIZE
      ensures Rotate(b)[i][j] == 0 || IsTile(Rotate(b)[i][j])
    {
      assert Rotate(b)[i][j] == b[SIZE - 1 - j][i];
    }
  }

  lemma {:induction false} RotateNKeepsTiles(b: Board, n: nat)
    requires IsBoard(b) && forall y :: 0 <= y < SIZE ==> TilesOnly(b[y])
    ensures forall y :: 0 <= y < SIZE ==> TilesOnly(RotateN(b, n)[y])
    decreases n
  {
    if n > 0 {
      RotateKeepsTiles(b);
      RotateNKeepsTiles(Rotate(b), n - 1);
    }
  }

  // ---------------------------------------------------------------------------
  // New tiles

  /** Cell (y', x') comes at or after (y, x) in row-major order. */
  predicate AtOrAfter(y': int, x': int, y: int, x: int) {
    y' > y || (y' == y && x' >= x)
  }

  /** The empty cells from (y, x) on, in row-major order. */
  function EmptyFrom(b: Board, y: nat, x: nat): (r: seq<(int, int)>)
    requires IsBoard(b) && y <= SIZE && x <= SIZE
    ensures forall p :: p in r <==> 0 <= p.0 < SIZE && 0 <= p.1 < SIZE && AtOrAfter(p.0, p.1, y, x) && b[p.0][p.1] == 0
    decreases SIZE - y, SIZE - x
  {
    if y == SIZE then []
    else if x == SIZE then EmptyFrom(b, y + 1, 0)
    else if b[y][x] == 0 then [(y, x)] + EmptyFrom(b, y, x + 1)
    else EmptyFrom(b, y, x + 1)
  }

  /** Every cell holds a tile. */
  predicate Full(b: Board)
    requires IsBoard(b)
  {
    forall y, x :: 0 <= y < SIZE && 0 <= x < SIZE ==> b[y][x] != 0
  }

  /** `r` is `b` with a 2 or a 4 put on the empty cell (y, x) and nothing else changed. */
  predicate NewTileAt(b: Board, r: Board, y: int, x: int)
    requires IsBoard(b) && IsBoard(r)
  {
    && 0 <= y < SIZE && 0 <= x < SIZE
    && b[y][x] == 0
    && (r[y][x] == 2 || r[y][x] == 4)
    && forall i, j :: 0 <= i < SIZE && 0 <= j < SIZE && (i != y || j != x) ==> r[i][j] == b[i][j]
  }

  /** The two random draws of `addRandomTile`: which empty cell, and 2 or 4. */
  datatype TileDraw = TileDraw(at: Draw, value: Draw)

  predicate ValidTileDraw(t: TileDraw) {
    Valid(t.at) && Valid(t.value)
  }

  /** `addRandomTile`: a 2 (when the draw is below 0.9) or a 4 on the empty cell that
      the draw picks out of the row-major list of empty cells; a full board is left
      alone. */
  function AddRandomTile(b: Board, t: TileDraw): (r: Board)
    requires IsBoard(b) && ValidTileDraw(t)
    ensures IsBoard(r)
    ensures Full(b) ==> r == b
    ensures !Full(b) ==> exists y, x :: NewTileAt(b, r, y, x)
  {
    var empty := EmptyFrom(b, 0, 0);
    if |empty| == 0 then
      assert Full(b) by {
        forall y, x | 0 <= y < SIZE && 0 <= x < SIZE
          ensures b[y][x] != 0
        {
          assert (y, x) !in empty;
        }
      }
      b
    else
      var p := empty[Scale(t.at, |empty|)];
      assert p in empty;
      var r := SetCell(b, p.0, p.1, if Below(t.value, 9, 10) then 2 else 4);
      assert NewTileAt(b, r, p.0, p.1);
      r
  }

  /** Every empty cell can receive the new tile, with either value. */
  lemma AnyEmptyCellCanBeChosen(b: Board, y: int, x: int, v: int)
    requires IsBoard(b) && 0 <= y < SIZE && 0 <= x < SIZE && b[y][x] == 0
    requires v == 2 || v == 4
    ensures exists t :: ValidTileDraw(t) && AddRandomTile(b, t)[y][x] == v
  {
    var empty := EmptyFrom(b, 0, 0);
    assert (y, x) in empty;
    var i :| 0 <= i < |empty| && empty[i] == (y, x);
    ScaleOnto(|empty|, i);
    var t := TileDraw(Draw(i, |empty|), if v == 2 then Draw(0, 1) else Draw(9, 10));
    assert ValidTileDraw(t) && AddRandomTile(b, t)[y][x] == v;
  }

  /** A fresh game: two random tiles on an empty board. */
  function NewBoard(t1: TileDraw, t2: TileDraw): (b: Board)
    requires ValidTileDraw(t1) && ValidTileDraw(t2)
    ensures IsBoard(b)
  {
    AddRandomTile(AddRandomTile(Empty(SIZE, SIZE), t1), t2)
  }

  lemma SmallTiles()
    ensures IsTile(2) && IsTile(4)
  {
    assert IsTile(4 / 2);
  }

  /** A fresh board holds exactly two tiles, each a 2 or a 4, on two different cells. */
  lemma NewBoardHasTwoTiles(t1: TileDraw, t2: TileDraw)
    requires ValidTileDraw(t1) && ValidTileDraw(t2)
    ensures exists y1, x1, y2, x2 :: (y1 != y2 || x1 != x2) && TwoTiles(NewBoard(t1, t2), y1, x1, y2, x2)
  {
    var b0 := Empty(SIZE, SIZE);
    assert !Full(b0) by { assert b0[0][0] == 0; }
    var b1 := AddRandomTile(b0, t1);
    var y1, x1 :| NewTileAt(b0, b1, y1, x1);
    FirstTile(b0, b1, y1, x1);
    var b2 := AddRandomTile(b1, t2);
    assert b2 == NewBoard(t1, t2);
    var y2, x2 :| NewTileAt(b1, b2, y2, x2);
    SecondTile(b1, b2, y1, x1, y2, x2);
  }

  /** The first tile on an empty board is the only one, and leaves room for another. */
  lemma FirstTile(b0: Board, b1: Board, y1: int, x1: int)
    requires IsBoard(b0) && IsBoard(b1) && b0 == Empty(SIZE, SIZE) && NewTileAt(b0, b1, y1, x1)
    ensures TwoTiles(b1, y1, x1, y1, x1) && !Full(b1)
  {
    var x' := if x1 == 0 then 1 else 0;
    assert b1[y1][x'] == 0;
  }

  /** A second tile goes on another cell than the first. */
  lemma SecondTile(b1: Board, b2: Board, y1: int, x1: int, y2: int, x2: int)
    requires IsBoard(b1) && IsBoard(b2) && TwoTiles(b1, y1, x1, y1, x1) && NewTileAt(b1, b2, y2, x2)
    ensures (y1 != y2 || x1 != x2) && TwoTiles(b2, y1, x1, y2, x2)
  {
  }

  /** Cells (y1, x1) and (y2, x2) hold 2 or 4, every other cell is empty. */
  predicate TwoTiles(b: Board, y1: int, x1: int, y2: int, x2: int)
    requires IsBoard(b)
  {
    && 0 <= y1 < SIZE && 0 <= x1 < SIZE && 0 <= y2 < SIZE && 0 <= x2 < SIZE
    && (b[y1][x1] == 2 || b[y1][x1] == 4)
    && (b[y2][x2] == 2 || b[y2][x2] == 4)
    && forall i, j :: 0 <= i < SIZE && 0 <= j < SIZE && (i != y1 || j != x1) && (i != y2 || j != x2) ==> b[i][j] == 0
  }

  // ---------------------------------------------------------------------------
  // The key handler

  datatype State = State(board: Board, score: int, paused: bool, over: bool)

  datatype Dir = Left | Up | Right | Down

  datatype Key = Arrow(dir: Dir) | PauseKey | ResetKey | OtherKey

  /** The direction numbers of the key map. */
  function DirIndex(d: Dir): (i: int)
    ensures 0 <= i < 4
  {
    match d
    case Left => 0
    case Up => 1
    case Right => 2
    case Down => 3
  }

  /** A reachable game state: a 4×4 board of tiles and a non-negative score. */
  predicate Inv(s: State) {
    && IsBoard(s.board)
    && (forall y :: 0 <= y < SIZE ==> TilesOnly(s.board[y]))
    && s.score >= 0
  }

  /** The state a new game or a reset starts in. */
  function Start(t1: TileDraw, t2: TileDraw): (s: State)
    requires ValidTileDraw(t1) && ValidTileDraw(t2)
    ensures Inv(s) && s.score == 0 && !s.paused && !s.over
  {
    var b0 := Empty(SIZE, SIZE);
    assert BoardTiles(b0);
    AddRandomTileKeepsTiles(b0, t1);
    AddRandomTileKeepsTiles(AddRandomTile(b0, t1), t2);
    State(NewBoard(t1, t2), 0, false, false)
  }

  /** The keydown handler. `t1` draws the tile added after a move and the first tile
      of a reset, `t2` the second tile of a reset. */
  function OnKey(s: State, key: Key, t1: TileDraw, t2: TileDraw): (s': State)
    requires IsBoard(s.board) && ValidTileDraw(t1) && ValidTileDraw(t2)
    ensures IsBoard(s'.board)
    ensures !s.over && key == PauseKey ==> s' == s.(paused := !s.paused)
    ensures !s.over && key == ResetKey ==> s' == Start(t1, t2)
    ensures !s.over && (key == OtherKey || (key.Arrow? && s.paused)) ==> s' == s
  {
    if s.over then s
    else match key
      case PauseKey => s.(paused := !s.paused)
      case ResetKey => Start(t1, t2)
      case OtherKey => s
      case Arrow(d) => if s.paused then s else ArrowMove(s, d, t1)
  }

  /** An arrow key while the game runs: a move that changed the board gets a new tile,
      adds its gain and checks for game over; one that changed nothing is ignored. */
  function ArrowMove(s: State, d: Dir, t1: TileDraw): (s': State)
    requires IsBoard(s.board) && ValidTileDraw(t1)
    ensures IsBoard(s'.board)
  {
    var m := Move(s.board, DirIndex(d));
    if !m.moved then s
    else
      var nb := AddRandomTile(m.board, t1);
      State(nb, s.score + m.gain, s.paused, !HasMoves(nb))
  }

  /** After game over every key is ignored, including the reset key. */
  lemma OverIgnoresKeys(s: State, key: Key, t1: TileDraw, t2: TileDraw)
    requires IsBoard(s.board) && ValidTileDraw(t1) && ValidTileDraw(t2) && s.over
    ensures OnKey(s, key, t1, t2) == s
  {
  }

  /** A direction key that does not move the board changes nothing: no new tile, no
      score, no game-over check. */
  lemma IdleMoveChangesNothing(s: State, d: Dir, t1: TileDraw, t2: TileDraw)
    requires IsBoard(s.board) && ValidTileDraw(t1) && ValidTileDraw(t2)
    requires Move(s.board, DirIndex(d)).board == s.board
    ensures OnKey(s, Arrow(d), t1, t2) == s
  {
    MovedIffChanged(s.board, DirIndex(d));
  }

  /** A direction key that moves the board adds exactly one new tile on an empty cell
      of the moved board, adds the merge score, and ends the game exactly when the new
      board has no move left, that is, when no cell is empty or equal to its right or
      lower neighbour. */
  lemma MoveAddsOneTile(s: State, d: Dir, t1: TileDraw, t2: TileDraw)
    requires IsBoard(s.board) && ValidTileDraw(t1) && ValidTileDraw(t2)
    requires !s.over && !s.paused && Move(s.board, DirIndex(d)).board != s.board
    ensures var m := Move(s.board, DirIndex(d));
            var s' := OnKey(s, Arrow(d), t1, t2);
            && (exists y, x :: NewTileAt(m.board, s'.board, y, x))
            && s'.score == s.score + m.gain
            && !s'.paused
            && (s'.over <==> Stuck(s'.board))
            && (s'.over ==> forall dir :: 0 <= dir < 4 ==> !Move(s'.board, dir).moved)
  {
    var m := Move(s.board, DirIndex(d));
    MovedIffChanged(s.board, DirIndex(d));
    MovedLeavesRoom(s.board, DirIndex(d));
    var s' := OnKey(s, Arrow(d), t1, t2);
    assert !Full(m.board) by {
      var y, x :| 0 <= y < SIZE && 0 <= x < SIZE && m.board[y][x] == 0;
    }
    if s'.over {
      forall dir | 0 <= dir < 4
        ensures !Move(s'.board, dir).moved
      {
        StuckCannotMove(s'.board, dir);
      }
    }
  }

  /** The key handler keeps tiles powers of two and the score non-negative. */
  lemma OnKeyKeepsInv(s: State, key: Key, t1: TileDraw, t2: TileDraw)
    requires Inv(s) && ValidTileDraw(t1) && ValidTileDraw(t2)
    ensures Inv(OnKey(s, key, t1, t2))
  {
    if !s.over && key.Arrow? && !s.paused {
      var dir := DirIndex(key.dir);
      var m := Move(s.board, dir);
      if m.moved {
        MoveKeepsTiles(s.board, dir);
        AddRandomTileKeepsTiles(m.board, t1);
      }
    }
  }

  /** Every cell of the board is empty or a tile. */
  predicate BoardTiles(b: Board)
    requires IsBoard(b)
  {
    forall y :: 0 <= y < SIZE ==> TilesOnly(b[y])
  }

  /** Merging doubles tiles, so a move keeps cells powers of two and scores
      a non-negative amount. */
  lemma MoveKeepsTiles(b: Board, dir: int)
    requires IsBoard(b) && BoardTiles(b) && 0 <= dir < 4
    ensures BoardTiles(Move(b, dir).board) && Move(b, dir).gain >= 0
  {
    var turned := RotateN(b, Turns(dir));
    RotateNKeepsTiles(b, Turns(dir));
    var slid := SlideRows(turned);
    assert forall y :: 0 <= y < SIZE ==> TilesOnly(slid[y]);
    RotateNKeepsTiles(slid, (4 - Turns(dir)) % 4);
    RowGainsNonNegative(turned, SIZE);
  }

  lemma AddRandomTileKeepsTiles(b: Board, t: TileDraw)
    requires IsBoard(b) && BoardTiles(b) && ValidTileDraw(t)
    ensures BoardTiles(AddRandomTile(b, t))
  {
    var nb := AddRandomTile(b, t);
    SmallTiles();
    if !Full(b) {
      var y', x' :| NewTileAt(b, nb, y', x');
      forall y | 0 <= y < SIZE
        ensures TilesOnly(nb[y])
      {
        assert TilesOnly(b[y]);
      }
    }
  }

  lemma {:induction false} RowGainsNonNegative(b: Board, n: nat)
    requires IsBoard(b) && n <= SIZE && forall y :: 0 <= y < SIZE ==> TilesOnly(b[y])
    ensures RowGains(b, n) >= 0
  {
    if n > 0 {
      RowGainsNonNegative(b, n - 1);
    }
  }
}
