/**
 * The natural comparator the indexers sort with, and the stable sort
 * (`Array.prototype.sort`) they apply it through.
 *
 * The repository delegates the comparison to `localeCompare` with
 * `numeric: true` and `sensitivity: 'base'`; its locale tables are not part
 * of this model. This comparator keeps the two promises the indexers rely
 * on: a run of decimal digits compares by its numeric value ("p2" before
 * "p10"), and letters compare without regard to case. A string is cut into
 * chunks (one per digit run, one per other character, upper-case ASCII
 * letters folded to lower case) and the chunk sequences compare
 * lexicographically, numbers before characters.
 */
module NaturalOrder {

  datatype Chunk = Number(value: nat) | Symbol(c: char)

  predicate IsDigit(c: char) {
    '0' <= c <= '9'
  }

  /** Upper-case ASCII letters folded to lower case. */
  function Fold(c: char): char {
    if 'A' <= c <= 'Z' then (c as int + 32) as char else c
  }

  /** The length of the longest prefix of `s` made of digits. */
  function DigitRun(s: string): (n: nat)
    ensures n <= |s|
    ensures forall k :: 0 <= k < n ==> IsDigit(s[k])
    ensures n < |s| ==> !IsDigit(s[n])
  {
    if s == [] || !IsDigit(s[0]) then 0 else 1 + DigitRun(s[1..])
  }

  /** The value of a string of decimal digits. */
  function DecimalValue(digits: string): nat
    requires forall k :: 0 <= k < |digits| ==> IsDigit(digits[k])
  {
    if digits == [] then 0
    else
      assert IsDigit(digits[|digits| - 1]);
      DecimalValue(digits[..|digits| - 1]) * 10 + (digits[|digits| - 1] as int - '0' as int)
  }

  /** `s` cut into digit runs (by value) and single other characters (case-folded). */
  function Chunks(s: string): seq<Chunk>
    decreases |s|
  {
    if s == [] then []
    else if IsDigit(s[0]) then
      var n := DigitRun(s);
      [Number(DecimalValue(s[..n]))] + Chunks(s[n..])
    else [Symbol(Fold(s[0]))] + Chunks(s[1..])
  }

  /** Numbers before characters; numbers by value, characters by code point. */
  predicate ChunkLeq(a: Chunk, b: Chunk) {
    match a
    case Number(m) => !b.Number? || m <= b.value
    case Symbol(c) => b.Symbol? && c <= b.c
  }

  /** The lexicographic extension of `ChunkLeq`; a prefix comes first. */
  predicate LexLeq(a: seq<Chunk>, b: seq<Chunk>)
    decreases |a|
  {
    a == [] || (b != [] && if a[0] == b[0] then LexLeq(a[1..], b[1..]) else ChunkLeq(a[0], b[0]))
  }

  /** `naturalSort(x, y) <= 0`: `x` may be placed before `y`. */
  predicate NaturalLeq(x: string, y: string) {
    LexLeq(Chunks(x), Chunks(y))
  }

  /** `naturalSort(x, y) == 0`. */
  predicate Equivalent(x: string, y: string) {
    NaturalLeq(x, y) && NaturalLeq(y, x)
  }

  lemma {:induction false} LexLeqReflexive(a: seq<Chunk>)
    ensures LexLeq(a, a)
  {
    if a != [] {
      LexLeqReflexive(a[1..]);
    }
  }

  lemma {:induction false} LexLeqTotal(a: seq<Chunk>, b: seq<Chunk>)
    ensures LexLeq(a, b) || LexLeq(b, a)
  {
    if a != [] && b != [] && a[0] == b[0] {
      LexLeqTotal(a[1..], b[1..]);
    }
  }

  lemma {:induction false} LexLeqTransitive(a: seq<Chunk>, b: seq<Chunk>, c: seq<Chunk>)
    requires LexLeq(a, b) && LexLeq(b, c)
    ensures LexLeq(a, c)
  {
    if a != [] && a[0] == b[0] && b[0] == c[0] {
      LexLeqTransitive(a[1..], b[1..], c[1..]);
    }
  }

  /** The comparator is a total preorder, which is what a sort needs of it. */
  lemma NaturalLeqReflexive(x: string)
    ensures NaturalLeq(x, x)
  {
    LexLeqReflexive(Chunks(x));
  }

  lemma NaturalLeqTotal(x: string, y: string)
    ensures NaturalLeq(x, y) || NaturalLeq(y, x)
  {
    LexLeqTotal(Chunks(x), Chunks(y));
  }

  lemma NaturalLeqTransitive(x: string, y: string, z: string)
    requires NaturalLeq(x, y) && NaturalLeq(y, z)
    ensures NaturalLeq(x, z)
  {
    LexLeqTransitive(Chunks(x), Chunks(y), Chunks(z));
  }

  /** Cutting a concatenation where the seam is not inside a digit run. */
  lemma {:induction false} ChunksAppend(p: string, q: string)
    requires p == [] || q == [] || !IsDigit(p[|p| - 1]) || !IsDigit(q[0])
    ensures Chunks(p + q) == Chunks(p) + Chunks(q)
    decreases |p|
  {
    if p == [] {
      assert p + q == q;
    } else if q == [] {
      assert p + q == p;
    } else {
      var n := HeadLength(p);
      var tail := p[n..];
      assert tail == [] || !IsDigit(tail[|tail| - 1]) || !IsDigit(q[0]) by {
        if tail != [] {
          assert tail[|tail| - 1] == p[|p| - 1];
        }
      }
      ChunksAppend(tail, q);
      ChunksCons(p);
      ChunksCons(p + q);
      HeadOfAppend(p, q);
    }
  }

  /** The length of the first chunk of a non-empty `s`. */
  function HeadLength(s: string): (n: nat)
    requires s != []
    ensures 1 <= n <= |s|
  {
    if IsDigit(s[0]) then DigitRun(s) else 1
  }

  /** The first chunk of a non-empty `s`. */
  function HeadChunk(s: string): Chunk
    requires s != []
  {
    if IsDigit(s[0]) then Number(DecimalValue(s[..DigitRun(s)])) else Symbol(Fold(s[0]))
  }

  lemma ChunksCons(s: string)
    requires s != []
    ensures Chunks(s) == [HeadChunk(s)] + Chunks(s[HeadLength(s)..])
  {
  }

  lemma HeadOfAppend(p: string, q: string)
    requires p != [] && (q == [] || !IsDigit(p[|p| - 1]) || !IsDigit(q[0]))
    ensures HeadLength(p + q) == HeadLength(p) && HeadChunk(p + q) == HeadChunk(p)
    ensures (p + q)[HeadLength(p)..] == p[HeadLength(p)..] + q
  {
    assert (p + q)[0] == p[0];
    if IsDigit(p[0]) {
      DigitRunStopsAtSeam(p, q);
      assert (p + q)[..DigitRun(p)] == p[..DigitRun(p)];
    }
  }

  lemma {:induction false} DigitRunStopsAtSeam(p: string, q: string)
    requires p != [] && IsDigit(p[0])
    requires q == [] || !IsDigit(p[|p| - 1]) || !IsDigit(q[0])
    ensures DigitRun(p + q) == DigitRun(p)
  {
    assert (p + q)[1..] == p[1..] + q;
    if |p| == 1 {
      assert p[1..] + q == q;
    } else if IsDigit(p[1]) {
      DigitRunStopsAtSeam(p[1..], q);
    } else {
      assert (p[1..] + q)[0] == p[1];
    }
  }

  /** For a non-empty digit string, its chunks are one number with its value. */
  lemma DigitsAreOneChunk(d: string)
    requires d != [] && forall k :: 0 <= k < |d| ==> IsDigit(d[k])
    ensures Chunks(d) == [Number(DecimalValue(d))]
  {
    var n := DigitRun(d);
    assert n == |d|;
    assert d[..n] == d;
    assert d[n..] == [];
  }

  /** A shared prefix of chunks does not affect the order. */
  lemma {:induction false} LexLeqCommonPrefix(c: seq<Chunk>, x: Chunk, y: Chunk)
    ensures LexLeq(c + [x], c + [y]) <==> ChunkLeq(x, y)
  {
    if c == [] {
      assert ([x])[1..] == [];
      if x == y {
        LexLeqReflexive([]);
      }
    } else {
      assert (c + [x])[1..] == c[1..] + [x];
      assert (c + [y])[1..] == c[1..] + [y];
      LexLeqCommonPrefix(c[1..], x, y);
    }
  }

  /**
   * Digit runs compare numerically: after a common prefix that does not end
   * in a digit, "p2" comes before "p10" because 2 <= 10, whatever their
   * lengths as text.
   */
  lemma NumbersCompareByValue(p: string, d1: string, d2: string)
    requires p == [] || !IsDigit(p[|p| - 1])
    requires d1 != [] && forall k :: 0 <= k < |d1| ==> IsDigit(d1[k])
    requires d2 != [] && forall k :: 0 <= k < |d2| ==> IsDigit(d2[k])
    ensures NaturalLeq(p + d1, p + d2) <==> DecimalValue(d1) <= DecimalValue(d2)
  {
    ChunksAppend(p, d1);
    ChunksAppend(p, d2);
    DigitsAreOneChunk(d1);
    DigitsAreOneChunk(d2);
    LexLeqCommonPrefix(Chunks(p), Number(DecimalValue(d1)), Number(DecimalValue(d2)));
  }

  /**
   * Digit runs inside the strings compare numerically too: after a common
   * prefix, a smaller run comes first whatever follows it ("v84_2_x" before
   * "v84_10_x"), and equal values leave the order to what follows.
   */
  lemma DigitRunsCompareByValue(p: string, d1: string, q1: string, d2: string, q2: string)
    requires p == [] || !IsDigit(p[|p| - 1])
    requires d1 != [] && forall k :: 0 <= k < |d1| ==> IsDigit(d1[k])
    requires d2 != [] && forall k :: 0 <= k < |d2| ==> IsDigit(d2[k])
    requires q1 == [] || !IsDigit(q1[0])
    requires q2 == [] || !IsDigit(q2[0])
    ensures DecimalValue(d1) < DecimalValue(d2) ==>
      NaturalLeq(p + d1 + q1, p + d2 + q2) && !NaturalLeq(p + d2 + q2, p + d1 + q1)
    ensures DecimalValue(d1) == DecimalValue(d2) ==>
      (NaturalLeq(p + d1 + q1, p + d2 + q2) <==> NaturalLeq(q1, q2))
  {
    ChunksWithRun(p, d1, q1);
    ChunksWithRun(p, d2, q2);
    var x, y := Number(DecimalValue(d1)), Number(DecimalValue(d2));
    LexLeqAfterPrefix(Chunks(p), x, Chunks(q1), y, Chunks(q2));
    LexLeqAfterPrefix(Chunks(p), y, Chunks(q2), x, Chunks(q1));
  }

  /** The chunks of a digit run between a non-digit end and a non-digit start. */
  lemma ChunksWithRun(p: string, d: string, q: string)
    requires p == [] || !IsDigit(p[|p| - 1])
    requires d != [] && forall k :: 0 <= k < |d| ==> IsDigit(d[k])
    requires q == [] || !IsDigit(q[0])
    ensures Chunks(p + d + q) == Chunks(p) + [Number(DecimalValue(d))] + Chunks(q)
  {
    ChunksAppend(p, d);
    ChunksAppend(p + d, q);
    DigitsAreOneChunk(d);
  }

  /** After a common prefix, the first differing chunk decides; equal chunks defer to the rest. */
  lemma {:induction false} LexLeqAfterPrefix(c: seq<Chunk>, x: Chunk, a: seq<Chunk>, y: Chunk, b: seq<Chunk>)
    ensures x != y ==> (LexLeq(c + [x] + a, c + [y] + b) <==> ChunkLeq(x, y))
    ensures x == y ==> (LexLeq(c + [x] + a, c + [y] + b) <==> LexLeq(a, b))
  {
    if c == [] {
      assert c + [x] + a == [x] + a && c + [y] + b == [y] + b;
      assert ([x] + a)[0] == x && ([x] + a)[1..] == a;
      assert ([y] + b)[0] == y && ([y] + b)[1..] == b;
    } else {
      assert (c + [x] + a)[0] == c[0] && (c + [y] + b)[0] == c[0];
      assert (c + [x] + a)[1..] == c[1..] + [x] + a;
      assert (c + [y] + b)[1..] == c[1..] + [y] + b;
      LexLeqAfterPrefix(c[1..], x, a, y, b);
    }
  }

  /** The lower-case form of every ASCII letter of `s`. */
  function Lower(s: string): (r: string)
    ensures |r| == |s|
  {
    if s == [] then [] else [Fold(s[0])] + Lower(s[1..])
  }

  lemma {:induction false} LowerAppend(a: string, b: string)
    ensures Lower(a + b) == Lower(a) + Lower(b)
  {
    if a == [] {
      assert a + b == b;
    } else {
      assert (a + b)[0] == a[0];
      assert (a + b)[1..] == a[1..] + b;
      LowerAppend(a[1..], b);
    }
  }

  lemma {:induction false} LowerDigits(d: string)
    requires forall k :: 0 <= k < |d| ==> IsDigit(d[k])
    ensures Lower(d) == d
  {
    if d != [] {
      assert IsDigit(d[0]);
      LowerDigits(d[1..]);
      assert d == [d[0]] + d[1..];
    }
  }

  lemma DigitRunLower(s: string)
    ensures DigitRun(Lower(s)) == DigitRun(s)
    ensures Lower(s)[..DigitRun(s)] == s[..DigitRun(s)]
    ensures Lower(s)[DigitRun(s)..] == Lower(s[DigitRun(s)..])
  {
    var n := DigitRun(s);
    var digits := s[..n];
    var rest := s[n..];
    assert s == digits + rest;
    LowerAppend(digits, rest);
    LowerDigits(digits);
    var l := Lower(s);
    assert l == digits + Lower(rest);
    if n > 0 {
      assert Lower(rest) == [] || !IsDigit(Lower(rest)[0]) by {
        if rest != [] {
          assert Lower(rest)[0] == Fold(rest[0]);
        }
      }
      DigitRunStopsAtSeam(digits, Lower(rest));
      assert DigitRun(digits) == n by {
        DigitRunStopsAtSeam(digits, rest);
      }
    } else if s != [] {
      assert l[0] == Fold(s[0]);
    }
  }

  /** Case does not matter: a string and its lower-case form are equivalent. */
  lemma {:induction false} CaseInsensitive(s: string)
    ensures Chunks(Lower(s)) == Chunks(s)
    ensures Equivalent(s, Lower(s))
    decreases |s|
  {
    if s != [] {
      var l := Lower(s);
      if IsDigit(s[0]) {
        var n := DigitRun(s);
        DigitRunLower(s);
        CaseInsensitive(s[n..]);
      } else {
        assert Fold(Fold(s[0])) == Fold(s[0]);
        assert l[1..] == Lower(s[1..]);
        CaseInsensitive(s[1..]);
      }
    }
    NaturalLeqReflexive(s);
  }

  // ---------------------------------------------------------------------
  // Sorting by a string key (`array.sort((a, b) => naturalSort(key(a), key(b)))`)
  // ---------------------------------------------------------------------

  predicate SortedBy<T>(xs: seq<T>, key: T -> string) {
    forall i, j :: 0 <= i < j < |xs| ==> NaturalLeq(key(xs[i]), key(xs[j]))
  }

  /** No two elements share a key. */
  predicate KeysDistinct<T>(xs: seq<T>, key: T -> string) {
    forall i, j :: 0 <= i < j < |xs| ==> key(xs[i]) != key(xs[j])
  }

  /** Places `x` before the first element it may precede. */
  function InsertBy<T>(x: T, ys: seq<T>, key: T -> string): seq<T> {
    if ys == [] || NaturalLeq(key(x), key(ys[0])) then [x] + ys
    else [ys[0]] + InsertBy(x, ys[1..], key)
  }

  /** Inserting adds exactly `x` to the multiset of elements. */
  lemma {:induction false} InsertByPermutes<T>(x: T, ys: seq<T>, key: T -> string)
    ensures multiset(InsertBy(x, ys, key)) == multiset(ys) + multiset{x}
  {
    if ys != [] && !NaturalLeq(key(x), key(ys[0])) {
      InsertByPermutes(x, ys[1..], key);
      assert ys == [ys[0]] + ys[1..];
    }
  }

  lemma {:induction false} InsertByCorrect<T>(x: T, ys: seq<T>, key: T -> string)
    requires SortedBy(ys, key)
    ensures multiset(InsertBy(x, ys, key)) == multiset(ys) + multiset{x}
    ensures SortedBy(InsertBy(x, ys, key), key)
  {
    InsertByPermutes(x, ys, key);
    if ys == [] {
    } else if NaturalLeq(key(x), key(ys[0])) {
      forall k | 0 <= k < |ys| ensures NaturalLeq(key(x), key(ys[k])) {
        if k > 0 {
          NaturalLeqTransitive(key(x), key(ys[0]), key(ys[k]));
        }
      }
      SortedCons(x, ys, key);
    } else {
      var rest := InsertBy(x, ys[1..], key);
      InsertByCorrect(x, ys[1..], key);
      NaturalLeqTotal(key(x), key(ys[0]));
      forall k | 0 <= k < |rest| ensures NaturalLeq(key(ys[0]), key(rest[k])) {
        var z := rest[k];
        assert z in multiset(rest);
        if z != x {
          assert z in ys[1..];
        }
      }
      SortedCons(ys[0], rest, key);
    }
  }

  /** An element placed before a sorted sequence of keys no smaller than its own. */
  lemma SortedCons<T>(y: T, rest: seq<T>, key: T -> string)
    requires SortedBy(rest, key)
    requires forall k :: 0 <= k < |rest| ==> NaturalLeq(key(y), key(rest[k]))
    ensures SortedBy([y] + rest, key)
  {
    var r := [y] + rest;
    forall i, j | 0 <= i < j < |r| ensures NaturalLeq(key(r[i]), key(r[j])) {
      assert r[j] == rest[j - 1];
      if i > 0 {
        assert r[i] == rest[i - 1];
      }
    }
  }

  /** A stable sort: the result is ordered and is a permutation of the input. */
  function SortBy<T>(xs: seq<T>, key: T -> string): (r: seq<T>)
    ensures multiset(r) == multiset(xs)
    ensures SortedBy(r, key)
  {
    if xs == [] then []
    else
      var rest := SortBy(xs[1..], key);
      InsertByCorrect(xs[0], rest, key);
      assert xs == [xs[0]] + xs[1..];
      InsertBy(xs[0], rest, key)
  }

  lemma SortByLength<T>(xs: seq<T>, key: T -> string)
    ensures |SortBy(xs, key)| == |xs|
  {
    assert |multiset(SortBy(xs, key))| == |multiset(xs)|;
  }

  /** The elements whose key is equivalent to `k`, in order. */
  function Ties<T>(xs: seq<T>, key: T -> string, k: string): seq<T> {
    if xs == [] then []
    else (if Equivalent(key(xs[0]), k) then [xs[0]] else []) + Ties(xs[1..], key, k)
  }

  lemma {:induction false} InsertByTies<T>(x: T, ys: seq<T>, key: T -> string, k: string)
    ensures Ties(InsertBy(x, ys, key), key, k) == Ties([x], key, k) + Ties(ys, key, k)
  {
    var tx := Ties([x], key, k);
    assert [x][1..] == [];
    assert Ties([], key, k) == [];
    assert tx == (if Equivalent(key(x), k) then [x] else []) + [];
    if ys == [] || NaturalLeq(key(x), key(ys[0])) {
      assert InsertBy(x, ys, key) == [x] + ys;
      assert ([x] + ys)[0] == x && ([x] + ys)[1..] == ys;
    } else {
      var y := ys[0];
      var rest := InsertBy(x, ys[1..], key);
      assert InsertBy(x, ys, key) == [y] + rest;
      InsertByTies(x, ys[1..], key, k);
      assert ([y] + rest)[0] == y && ([y] + rest)[1..] == rest;
      var ty := if Equivalent(key(y), k) then [y] else [];
      assert Ties(ys, key, k) == ty + Ties(ys[1..], key, k);
      assert Ties([y] + rest, key, k) == ty + tx + Ties(ys[1..], key, k);
      NotBothTied(key(x), key(y), k);
      assert ty + tx == tx + ty;
    }
  }

  /** Two keys out of order are not both equivalent to the same key. */
  lemma NotBothTied(a: string, b: string, k: string)
    requires !NaturalLeq(a, b)
    ensures !(Equivalent(a, k) && Equivalent(b, k))
  {
    if Equivalent(a, k) && Equivalent(b, k) {
      NaturalLeqTransitive(a, k, b);
    }
  }

  /**
   * Stability: elements with equivalent keys keep their input order, as
   * `Array.prototype.sort` guarantees.
   */
  lemma {:induction false} SortByStable<T>(xs: seq<T>, key: T -> string, k: string)
    ensures Ties(SortBy(xs, key), key, k) == Ties(xs, key, k)
  {
    if xs != [] {
      var x := xs[0];
      var rest := SortBy(xs[1..], key);
      assert SortBy(xs, key) == InsertBy(x, rest, key);
      InsertByTies(x, rest, key, k);
      SortByStable(xs[1..], key, k);
      assert [x][1..] == [];
      var tx := if Equivalent(key(x), k) then [x] else [];
      assert Ties([x], key, k) == tx + Ties([], key, k);
      assert Ties(xs, key, k) == tx + Ties(xs[1..], key, k);
    }
  }

  /** Sorting never makes two elements share a key. */
  lemma {:induction false} SortByKeepsKeysDistinct<T>(xs: seq<T>, key: T -> string)
    requires KeysDistinct(xs, key)
    ensures KeysDistinct(SortBy(xs, key), key)
  {
    if xs != [] {
      var rest := SortBy(xs[1..], key);
      SortByKeepsKeysDistinct(xs[1..], key);
      forall z | z in rest ensures key(z) != key(xs[0]) {
        assert z in multiset(rest);
        assert z in xs[1..];
      }
      InsertByKeepsKeysDistinct(xs[0], rest, key);
    }
  }

  lemma {:induction false} InsertByKeepsKeysDistinct<T>(x: T, ys: seq<T>, key: T -> string)
    requires KeysDistinct(ys, key)
    requires forall z :: z in ys ==> key(z) != key(x)
    ensures KeysDistinct(InsertBy(x, ys, key), key)
  {
    if ys == [] || NaturalLeq(key(x), key(ys[0])) {
      forall k | 0 <= k < |ys| ensures key(x) != key(ys[k]) {
        assert ys[k] in ys;
      }
      DistinctCons(x, ys, key);
    } else {
      var rest := InsertBy(x, ys[1..], key);
      assert ys[0] in ys;
      InsertByKeepsKeysDistinct(x, ys[1..], key);
      InsertByPermutes(x, ys[1..], key);
      forall k | 0 <= k < |rest| ensures key(ys[0]) != key(rest[k]) {
        var z := rest[k];
        assert z in multiset(rest);
        if z != x {
          assert z in ys[1..];
        }
      }
      DistinctCons(ys[0], rest, key);
    }
  }

  /** An element placed before a sequence of distinct keys none of which is its own. */
  lemma DistinctCons<T>(y: T, rest: seq<T>, key: T -> string)
    requires KeysDistinct(rest, key)
    requires forall k :: 0 <= k < |rest| ==> key(y) != key(rest[k])
    ensures KeysDistinct([y] + rest, key)
  {
    var r := [y] + rest;
    forall i, j | 0 <= i < j < |r| ensures key(r[i]) != key(r[j]) {
      assert r[j] == rest[j - 1];
      if i > 0 {
        assert r[i] == rest[i - 1];
      }
    }
  }
}
