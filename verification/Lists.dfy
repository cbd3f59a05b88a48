/** Cutting sequences into chunks, joining them again, and iterators that fail. */
module Lists {
  import opened Wrappers

  lemma Regroup<T>(a: seq<T>, b: seq<T>, c: seq<T>)
    ensures a + b + c == a + (b + c)
  {
  }

  function Joined<T>(ss: seq<seq<T>>): seq<T> {
    if ss == [] then [] else Joined(ss[..|ss| - 1]) + ss[|ss| - 1]
  }

  lemma {:induction false} JoinedConcat<T>(a: seq<seq<T>>, b: seq<seq<T>>)
    ensures Joined(a + b) == Joined(a) + Joined(b)
  {
    if b == [] {
      assert a + b == a;
    } else {
      JoinedConcat(a, b[..|b| - 1]);
      assert (a + b)[..|a + b| - 1] == a + b[..|b| - 1];
    }
  }

  lemma JoinedOne<T>(s: seq<T>)
    ensures Joined([s]) == s
  {
  }

  lemma JoinedCons<T>(first: seq<T>, rest: seq<seq<T>>)
    ensures Joined([first] + rest) == first + Joined(rest)
  {
    JoinedConcat([first], rest);
    JoinedOne(first);
  }

  lemma JoinedStep<T>(ss: seq<seq<T>>, i: nat)
    requires i < |ss|
    ensures Joined(ss[..i + 1]) == Joined(ss[..i]) + ss[i]
  {
    assert ss[..i + 1][..i] == ss[..i];
  }

  lemma JoinedPrefix<T>(ss: seq<seq<T>>, i: nat)
    requires i <= |ss|
    ensures Joined(ss[..i]) <= Joined(ss)
  {
    JoinedConcat(ss[..i], ss[i..]);
    assert ss == ss[..i] + ss[i..];
  }

  function Fold<A, T>(f: (A, T) -> A, start: A, xs: seq<T>): A {
    if xs == [] then start else f(Fold(f, start, xs[..|xs| - 1]), xs[|xs| - 1])
  }

  lemma {:induction false} FoldConcat<A, T>(f: (A, T) -> A, start: A, xs: seq<T>, ys: seq<T>)
    ensures Fold(f, start, xs + ys) == Fold(f, Fold(f, start, xs), ys)
  {
    if ys == [] {
      assert xs + ys == xs;
    } else {
      FoldConcat(f, start, xs, ys[..|ys| - 1]);
      assert (xs + ys)[..|xs + ys| - 1] == xs + ys[..|ys| - 1];
    }
  }

  lemma AppendNext<T>(a: seq<T>, b: seq<T>, i: nat)
    requires i < |b|
    ensures a + b[..i + 1] == a + b[..i] + [b[i]] && b[i] in b
  {
  }

  lemma AppendAll<T>(a: seq<T>, b: seq<T>)
    ensures a + b[..0] == a && a + b[..|b|] == a + b
  {
  }

  /** Rows cut into chunks of `n`; what is left over makes a last short chunk only at a clean end. */
  function Chunks<R>(n: nat, rows: seq<R>, keepRest: bool): seq<seq<R>>
    requires n > 0
    decreases |rows|
  {
    if |rows| >= n then [rows[..n]] + Chunks(n, rows[n..], keepRest)
    else if rows != [] && keepRest then [rows]
    else []
  }

  predicate Full<R>(n: nat, chunks: seq<seq<R>>) {
    forall i :: 0 <= i < |chunks| ==> 0 < |chunks[i]| <= n && (i < |chunks| - 1 ==> |chunks[i]| == n)
  }

  lemma FullCons<R>(n: nat, first: seq<R>, rest: seq<seq<R>>)
    requires 0 < n == |first| && Full(n, rest)
    ensures Full(n, [first] + rest)
  {
  }

  /** Chunking loses nothing at a clean end; all chunks but the last are exactly full, none is empty. */
  lemma {:induction false} ChunksPartition<R>(n: nat, rows: seq<R>)
    requires n > 0
    ensures Joined(Chunks(n, rows, true)) == rows && Full(n, Chunks(n, rows, true))
    decreases |rows|
  {
    if |rows| >= n {
      var first, rest := rows[..n], Chunks(n, rows[n..], true);
      ChunksPartition(n, rows[n..]);
      JoinedCons(first, rest);
      FullCons(n, first, rest);
      assert rows == first + rows[n..];
    } else {
      JoinedOne(rows);
    }
  }

  /** What an iterator yields before its first error. */
  function GoodPrefix<T, E>(results: seq<Result<T, E>>): (xs: seq<T>)
    ensures |xs| <= |results|
    ensures forall i :: 0 <= i < |xs| ==> results[i] == Ok(xs[i])
    ensures |xs| < |results| ==> results[|xs|].Err?
  {
    if results == [] || results[0].Err? then [] else [results[0].value] + GoodPrefix(results[1..])
  }

  predicate AllOfLength<T>(ss: seq<seq<T>>, k: nat) {
    forall i :: 0 <= i < |ss| ==> |ss[i]| == k
  }

  lemma {:induction false} UniformLength<T>(ss: seq<seq<T>>, k: nat)
    requires AllOfLength(ss, k)
    ensures |Joined(ss)| == |ss| * k
  {
    if ss != [] {
      UniformLength(ss[..|ss| - 1], k);
      assert |ss| * k == (|ss| - 1) * k + k;
    }
  }

  /** In a concatenation of equally long pieces, piece `r` starts at `r * k`. */
  lemma {:induction false} UniformPieces<T>(ss: seq<seq<T>>, k: nat, r: nat)
    requires AllOfLength(ss, k) && r < |ss|
    ensures |Joined(ss)| == |ss| * k
    ensures 0 <= r * k <= r * k + k <= |ss| * k && Joined(ss)[r * k..r * k + k] == ss[r]
    decreases |ss|
  {
    var front, last := ss[..|ss| - 1], |ss| - 1;
    UniformLength(front, k);
    assert |ss| * k == last * k + k;
    if r < last {
      UniformPieces(front, k, r);
      assert Joined(ss)[r * k..r * k + k] == Joined(front)[r * k..r * k + k];
    } else {
      assert Joined(ss)[last * k..] == ss[last];
    }
  }
}
