/** How a stream of accepted records is cut into bounded batches: one batch
    each time the running count reaches a positive multiple of the limit,
    and one more for a non-empty remainder. */
module Batches {

  /** The batches laid end to end. */
  function Flatten<T>(batches: seq<seq<T>>): seq<T> {
    if batches == [] then [] else batches[0] + Flatten(batches[1..])
  }

  lemma {:induction false} FlattenAppend<T>(a: seq<seq<T>>, b: seq<seq<T>>)
    ensures Flatten(a + b) == Flatten(a) + Flatten(b)
    decreases |a|
  {
    if a == [] {
      assert a + b == b;
    } else {
      assert (a + b)[1..] == a[1..] + b;
      FlattenAppend(a[1..], b);
    }
  }

  /** `s` cut into consecutive batches of `limit` elements, the last one
      holding the remainder when there is one. */
  function Chunks<T>(s: seq<T>, limit: nat): seq<seq<T>>
    requires limit > 0
    decreases |s|
  {
    if s == [] then []
    else if |s| <= limit then [s]
    else
      [s[..limit]] + Chunks(s[limit..], limit)
  }

  /** Adding one batch at the end adds its records at the end. */
  lemma FlattenSnoc<T>(issued: seq<seq<T>>, b: seq<T>)
    ensures Flatten(issued + [b]) == Flatten(issued) + b
  {
    FlattenAppend(issued, [b]);
    assert [b][1..] == [];
  }

  /** No element is lost, duplicated or reordered by the cutting. */
  lemma {:induction false} ChunksFlatten<T>(s: seq<T>, limit: nat)
    requires limit > 0
    ensures Flatten(Chunks(s, limit)) == s
    decreases |s|
  {
    if |s| > limit {
      ChunksFlatten(s[limit..], limit);
      assert s == s[..limit] + s[limit..];
    }
  }

  /** Every batch is non-empty and holds at most `limit` elements; every
      batch but the last holds exactly `limit`. */
  lemma {:induction false} ChunkSizes<T>(s: seq<T>, limit: nat)
    requires limit > 0
    ensures forall j :: 0 <= j < |Chunks(s, limit)| ==> 0 < |Chunks(s, limit)[j]| <= limit
    ensures forall j :: 0 <= j < |Chunks(s, limit)| - 1 ==> |Chunks(s, limit)[j]| == limit
    decreases |s|
  {
    if |s| > limit {
      ChunkSizes(s[limit..], limit);
      var rest := Chunks(s[limit..], limit);
      assert Chunks(s, limit) == [s[..limit]] + rest;
      assert forall j :: 1 <= j < |Chunks(s, limit)| ==> Chunks(s, limit)[j] == rest[j - 1];
    }
  }

  /** The number of batches is the length divided by the limit, rounded up. */
  lemma ChunkCount<T>(s: seq<T>, limit: nat)
    requires limit > 0
    ensures |Chunks(s, limit)| == (|s| + limit - 1) / limit
  {
    var k := |Chunks(s, limit)|;
    ChunkBounds(s, limit);
    DivUnique(|s| + limit - 1, k, |s| + limit - 1 - k * limit, limit);
  }

  lemma {:induction false} ChunkBounds<T>(s: seq<T>, limit: nat)
    requires limit > 0
    ensures |Chunks(s, limit)| * limit - limit < |s| <= |Chunks(s, limit)| * limit
            || (s == [] && Chunks(s, limit) == [])
    decreases |s|
  {
    if |s| > limit {
      ChunkBounds(s[limit..], limit);
      var k := |Chunks(s[limit..], limit)|;
      assert |Chunks(s, limit)| == k + 1;
      assert (k + 1) * limit == k * limit + limit;
    }
  }

  /** `s` is made of whole batches only: its length is a multiple of `limit`. */
  predicate Whole<T>(s: seq<T>, limit: nat)
    requires limit > 0
    decreases |s|
  {
    s == [] || (|s| >= limit && Whole(s[limit..], limit))
  }

  /** A whole batch, or nothing, added after whole batches leaves whole batches. */
  lemma {:induction false} WholeAppend<T>(a: seq<T>, b: seq<T>, limit: nat)
    requires limit > 0 && Whole(a, limit) && (|b| == limit || b == [])
    ensures Whole(a + b, limit)
    decreases |a|
  {
    if a == [] {
      assert a + b == b;
      if b != [] {
        assert b[limit..] == [];
      }
    } else {
      WholeAppend(a[limit..], b, limit);
      assert (a + b)[limit..] == a[limit..] + b;
    }
  }

  /** Whole batches number exactly their length over the limit. */
  lemma {:induction false} WholeCount<T>(a: seq<T>, limit: nat)
    requires limit > 0 && Whole(a, limit)
    ensures |a| == |Chunks(a, limit)| * limit
    decreases |a|
  {
    if a != [] {
      WholeCount(a[limit..], limit);
      ChunksFirst(a, limit);
      var k := |Chunks(a[limit..], limit)|;
      assert (k + 1) * limit == k * limit + limit;
    }
  }

  /** Cutting a prefix made of whole batches separately from the rest
      gives the same batches as cutting the whole. */
  lemma {:induction false} ChunksAppend<T>(a: seq<T>, b: seq<T>, limit: nat)
    requires limit > 0 && Whole(a, limit)
    ensures Chunks(a + b, limit) == Chunks(a, limit) + Chunks(b, limit)
    decreases |a|
  {
    if a == [] {
      assert a + b == b;
    } else {
      ChunksAppend(a[limit..], b, limit);
      ChunksStep(a, b, limit);
    }
  }

  /** After whole batches `a`, a full batch `b` (or a last, partial one)
      is cut off as a batch of its own, whatever follows it. */
  lemma ChunksSplit<T>(a: seq<T>, b: seq<T>, c: seq<T>, limit: nat)
    requires limit > 0 && Whole(a, limit)
    requires |b| == limit || (c == [] && 0 < |b| <= limit)
    ensures Chunks(a + b + c, limit) == Chunks(a, limit) + [b] + Chunks(c, limit)
  {
    assert a + b + c == a + (b + c);
    ChunksAppend(a, b + c, limit);
    if |b| == limit {
      ChunksFirst(b + c, limit);
      assert (b + c)[..limit] == b && (b + c)[limit..] == c;
    } else {
      assert b + c == b;
    }
  }

  /** The flush test `count % limit == 0`, where the count is made of whole
      flushed batches `a` and `m` pending elements (at most a batch's worth),
      fires exactly when the pending elements form a whole batch or there are
      none. */
  lemma FlushTest<T>(a: seq<T>, m: nat, limit: nat)
    requires limit > 0 && Whole(a, limit) && m <= limit
    ensures (|a| + m) % limit == 0 <==> m == 0 || m == limit
  {
    WholeCount(a, limit);
    BatchBoundary(|Chunks(a, limit)|, m, limit);
  }

  /** One step of `ChunksAppend`: peeling the first whole batch off `a`. */
  lemma ChunksStep<T>(a: seq<T>, b: seq<T>, limit: nat)
    requires limit > 0 && |a| >= limit
    requires Chunks(a[limit..] + b, limit) == Chunks(a[limit..], limit) + Chunks(b, limit)
    ensures Chunks(a + b, limit) == Chunks(a, limit) + Chunks(b, limit)
  {
    ChunksFirst(a, limit);
    if b == [] {
      assert a + b == a;
    } else {
      ChunksFirst(a + b, limit);
      assert (a + b)[..limit] == a[..limit];
      assert (a + b)[limit..] == a[limit..] + b;
    }
  }

  /** The first batch of a sequence holding at least one whole batch. */
  lemma ChunksFirst<T>(s: seq<T>, limit: nat)
    requires limit > 0 && |s| >= limit
    ensures Chunks(s, limit) == [s[..limit]] + Chunks(s[limit..], limit)
  {
    if |s| == limit {
      assert s[..limit] == s;
      assert s[limit..] == [];
    }
  }

  /** The flush test `count % limit == 0` on a running count made of `n` whole
      batches and `m` pending elements (at most one batch's worth) fires
      exactly when the pending elements form a whole batch or there are none. */
  lemma BatchBoundary(n: nat, m: nat, limit: nat)
    requires limit > 0 && m <= limit
    ensures (n * limit + m) % limit == 0 <==> m == 0 || m == limit
  {
    if m == limit {
      assert n * limit + m == (n + 1) * limit + 0;
      DivUnique(n * limit + m, n + 1, 0, limit);
    } else {
      DivUnique(n * limit + m, n, m, limit);
    }
  }

  /** Euclidean division has exactly one quotient and remainder. */
  lemma DivUnique(x: int, q: int, r: int, limit: int)
    requires limit > 0 && x == q * limit + r && 0 <= r < limit
    ensures x / limit == q && x % limit == r
  {
    var q', r' := x / limit, x % limit;
    assert x == q' * limit + r';
    AtLeastOnce(q - q', limit);
    AtLeastOnce(q' - q, limit);
    assert (q - q') * limit == r' - r;
  }

  lemma {:induction false} AtLeastOnce(a: int, limit: int)
    requires limit > 0
    ensures a >= 1 ==> a * limit >= limit
    decreases if a < 0 then 0 else a
  {
    if a > 1 {
      AtLeastOnce(a - 1, limit);
      assert a * limit == (a - 1) * limit + limit;
    }
  }
}
