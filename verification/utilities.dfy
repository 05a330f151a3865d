/** `split_data_to_blocks`: cutting a payload string into fixed-length
    blocks so that it can be handed to the renderer piece by piece. */
module Utilities {
  import opened Wrappers
  import opened Exceptions

  /** The blocks in order, glued back together. */
  function Concat(blocks: seq<string>): string
  {
    if |blocks| == 0 then "" else blocks[0] + Concat(blocks[1..])
  }

  /** Reference definition: consecutive slices of length `n`, the last one
      possibly shorter. */
  function Chunks(data: string, n: nat): seq<string>
    requires n > 0
    decreases |data|
  {
    if |data| == 0 then []
    else if |data| <= n then [data]
    else [data[..n]] + Chunks(data[n..], n)
  }

  /** The blocks glue back to the data; every block but the last is full
      and the last is never empty. */
  lemma {:induction false} ChunksShape(data: string, n: nat)
    requires n > 0
    ensures Concat(Chunks(data, n)) == data
    ensures forall i :: 0 <= i < |Chunks(data, n)| - 1 ==> |Chunks(data, n)[i]| == n
    ensures |Chunks(data, n)| > 0 ==> 0 < |Chunks(data, n)[|Chunks(data, n)| - 1]| <= n
    ensures |Chunks(data, n)| == 0 <==> |data| == 0
    decreases |data|
  {
    if |data| > n {
      var rest := Chunks(data[n..], n);
      ChunksShape(data[n..], n);
      assert Chunks(data, n) == [data[..n]] + rest;
      assert ([data[..n]] + rest)[1..] == rest;
      assert data[..n] + data[n..] == data;
      assert forall i :: 1 <= i < |rest| + 1 ==> ([data[..n]] + rest)[i] == rest[i - 1];
    }
  }

  /** The number of blocks is the length divided by `n`, rounded up. */
  lemma {:induction false} ChunksCount(data: string, n: nat)
    requires n > 0
    ensures |Chunks(data, n)| == (|data| + n - 1) / n
    decreases |data|
  {
    if |data| == 0 {
      DivModUnique(n - 1, n, 0, n - 1);
    } else if |data| <= n {
      DivModUnique(|data| + n - 1, n, 1, |data| - 1);
    } else {
      ChunksCount(data[n..], n);
      DivShift(|data| - n + n - 1, n);
    }
  }

  /** `d * n` grows at least by `n` once `d` is positive. */
  lemma MulAtLeast(d: int, n: int)
    requires n > 0 && d >= 1
    ensures d * n >= n
  {
    if d > 1 {
      MulAtLeast(d - 1, n);
      assert d * n == (d - 1) * n + n;
    }
  }

  /** Quotient and remainder are the only ones with `0 <= r < n`. */
  lemma DivModUnique(x: int, n: int, q: int, r: int)
    requires n > 0 && 0 <= r < n && x == q * n + r
    ensures x / n == q && x % n == r
  {
    var q0 := x / n;
    var r0 := x % n;
    assert x == q0 * n + r0;
    var d := q - q0;
    assert d * n == r0 - r by {
      assert q * n - q0 * n == (q - q0) * n;
    }
    if d >= 1 {
      MulAtLeast(d, n);
    } else if d <= -1 {
      MulAtLeast(-d, n);
    }
  }

  /** Adding `n` adds one to the quotient. */
  lemma DivShift(x: int, n: int)
    requires n > 0 && x >= 0
    ensures (x + n) / n == x / n + 1
  {
    var q, r := x / n, x % n;
    assert x == q * n + r;
    assert x + n == (q + 1) * n + r;
    DivModUnique(x + n, n, q + 1, r);
  }

  /** Past a multiple of `n`, the next multiple is reached exactly after `n` more. */
  lemma NextMultiple(s: int, t: int, n: int)
    requires n > 0 && s >= 0 && s % n == 0 && 0 < t <= n
    ensures (s + t) % n == 0 <==> t == n
  {
    var q := s / n;
    assert s == q * n + 0;
    if t == n {
      assert s + t == (q + 1) * n + 0;
      DivModUnique(s + t, n, q + 1, 0);
    } else {
      DivModUnique(s + t, n, q, t);
    }
  }

  /** A remainder test by a negative divisor asks the same as by its magnitude. */
  lemma ZeroRemainderNegative(x: int, b: int)
    requires b < 0
    ensures x % b == 0 <==> x % -b == 0
  {
    var q, r := x / b, x % b;
    assert x == q * b + r;
    assert 0 <= r < -b;
    assert x == (-q) * (-b) + r;
    DivModUnique(x, -b, -q, r);
  }

  /** Cutting a text whose length is a multiple of `n`, followed by a short
      non-empty tail, adds the tail as the last block. */
  lemma {:induction false} ChunksThenTail(a: string, b: string, n: nat)
    requires n > 0
    requires |a| % n == 0
    requires 0 < |b| <= n
    ensures Chunks(a + b, n) == Chunks(a, n) + [b]
    decreases |a|
  {
    if |a| == 0 {
      assert a + b == b;
    } else {
      assert |a| >= n by {
        if |a| < n { DivModUnique(|a|, n, 0, |a|); }
      }
      assert (a + b)[..n] == a[..n];
      assert (a + b)[n..] == a[n..] + b;
      assert |a[n..]| % n == 0 by {
        var q := |a| / n;
        assert |a| == q * n + 0;
        assert |a[n..]| == (q - 1) * n + 0;
        DivModUnique(|a[n..]|, n, q - 1, 0);
      }
      ChunksThenTail(a[n..], b, n);
      if |a| == n {
        assert Chunks(a, n) == [a];
        assert a[n..] == [];
      } else {
        assert Chunks(a, n) == [a[..n]] + Chunks(a[n..], n);
      }
    }
  }

  function Abs(x: int): nat
  {
    if x < 0 then -x else x
  }

  /** `split_data_to_blocks(data, block_length)`. A zero block length fails
      with a division by zero as soon as there is a character to look at; a
      negative one cuts blocks of its magnitude, since the remainder test
      only asks for divisibility. */
  method SplitDataToBlocks(data: string, blockLength: int) returns (r: Result<seq<string>, Error>)
    ensures r.Failure? <==> blockLength == 0 && |data| > 0
    ensures r.Failure? ==> r.error == Fault(ZeroDivisionError)
    ensures |data| == 0 ==> r == Success([])
    ensures blockLength != 0 ==> r == Success(Chunks(data, Abs(blockLength)))
    ensures r.Success? ==> Concat(r.value) == data
    ensures r.Success? ==> forall i :: 0 <= i < |r.value| - 1 ==> |r.value[i]| == Abs(blockLength)
    ensures r.Success? && |r.value| > 0 ==> 0 < |r.value[|r.value| - 1]| <= Abs(blockLength)
  {
    if |data| == 0 {
      return Success([]);
    }
    if blockLength == 0 {
      return Failure(Fault(ZeroDivisionError));
    }
    var blocks := CutBlocks(data, blockLength);
    ChunksShape(data, Abs(blockLength));
    return Success(blocks);
  }

  /** The loop of `split_data_to_blocks`: one pass over `data`, closing the
      current block whenever `(i + 1) % block_length == 0` and emitting the
      unfinished block, if any, at the end. */
  method CutBlocks(data: string, blockLength: int) returns (blocks: seq<string>)
    requires blockLength != 0
    ensures blocks == Chunks(data, Abs(blockLength))
  {
    var n := Abs(blockLength);
    blocks := [];
    var tmpBlock := "";
    var i := 0;
    ghost var start := 0;
    while i < |data|
      invariant 0 <= start <= i <= |data|
      invariant start == |blocks| * n
      invariant i - start < n
      invariant tmpBlock == data[start..i]
      invariant blocks == Chunks(data[..start], n)
    {
      SliceExtend(data, start, i);
      tmpBlock := tmpBlock + [data[i]];
      i := i + 1;
      CloseTest(|blocks|, start, i, n, blockLength);
      if i % blockLength == 0 {
        PrefixThenBlock(data, |blocks|, start, i, n);
        blocks := blocks + [tmpBlock];
        tmpBlock := "";
        start := i;
      }
    }
    if |tmpBlock| > 0 {
      PrefixThenBlock(data, |blocks|, start, |data|, n);
      blocks := blocks + [tmpBlock];
    } else {
      assert data[..start] == data;
    }
  }

  lemma SliceExtend(s: string, a: int, b: int)
    requires 0 <= a <= b < |s|
    ensures s[a..b + 1] == s[a..b] + [s[b]]
  {
  }

  /** The blocks of a prefix ending on a block boundary, then one more block. */
  lemma PrefixThenBlock(data: string, k: nat, start: int, i: int, n: nat)
    requires n > 0 && 0 <= start < i <= |data|
    requires start == k * n && i - start <= n
    ensures Chunks(data[..i], n) == Chunks(data[..start], n) + [data[start..i]]
    ensures data[..|data|] == data
  {
    assert data[..start] + data[start..i] == data[..i];
    DivModUnique(start, n, k, 0);
    ChunksThenTail(data[..start], data[start..i], n);
  }

  /** The source's remainder test closes a block exactly when it is full. */
  lemma CloseTest(k: nat, start: int, i: int, n: nat, blockLength: int)
    requires n > 0 && n == Abs(blockLength)
    requires start == k * n && start < i <= start + n
    ensures i % blockLength == 0 <==> i - start == n
    ensures i - start == n ==> i == (k + 1) * n
  {
    DivModUnique(start, n, k, 0);
    NextMultiple(start, i - start, n);
    if blockLength < 0 {
      ZeroRemainderNegative(i, blockLength);
    }
  }
}
