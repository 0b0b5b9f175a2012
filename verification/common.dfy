/** Helpers shared by the models of the individual puzzle solutions: an Option
    type for the places where the Rust code unwraps or panics, Rust's
    truncating integer division, sums, and an insertion sort over an arbitrary
    ordering, with the fact that sorting a permutation gives the same sequence. */
module Common {

  datatype Option<T> = None | Some(value: T)

  function Abs(a: int): (r: int)
    ensures r >= 0 && (r == a || r == -a)
  {
    if a < 0 then -a else a
  }

  function Min(a: int, b: int): int
  {
    if a <= b then a else b
  }

  function Max(a: int, b: int): int
  {
    if a >= b then a else b
  }

  /** Rust's `%` on signed integers: the remainder takes the sign of the
      dividend (Dafny's own `%` is Euclidean and never negative). */
  function RustRem(a: int, b: int): (r: int)
    requires b != 0
    ensures a >= 0 ==> 0 <= r < Abs(b)
    ensures a < 0 ==> -Abs(b) < r <= 0
    ensures (r == 0) <==> (a % b == 0)
  {
    if a >= 0 || a % b == 0 then a % b else a % b - Abs(b)
  }

  /** Rust's `/` on signed integers: the quotient rounded toward zero. */
  function RustDiv(a: int, b: int): (q: int)
    requires b != 0
    ensures a == b * q + RustRem(a, b)
  {
    if a >= 0 || a % b == 0 then a / b
    else
      var q := a / b + (if b > 0 then 1 else -1);
      assert b * q == b * (a / b) + Abs(b);
      q
  }

  /** A nonzero multiple of `m` is at least `m` away from zero. */
  lemma {:induction false} MultipleBound(m: int, d: int)
    requires m > 0 && d != 0
    ensures d > 0 ==> m * d >= m
    ensures d < 0 ==> m * d <= -m
    decreases Abs(d)
  {
    if d > 1 {
      MultipleBound(m, d - 1);
      assert m * d == m * (d - 1) + m;
    } else if d < -1 {
      MultipleBound(m, d + 1);
      assert m * d == m * (d + 1) - m;
    }
  }

  /** Euclidean division is unique: a quotient and a remainder in range
      are Dafny's. */
  lemma RemainderUnique(a: int, m: int, q: int, r: int)
    requires m != 0 && 0 <= r < Abs(m) && a == m * q + r
    ensures a % m == r
  {
    var d := q - a / m;
    assert m * d == a % m - r;
    if d != 0 {
      if m > 0 {
        MultipleBound(m, d);
      } else {
        assert m * d == (-m) * (-d);
        MultipleBound(-m, -d);
      }
    }
  }

  // Decimal digits, as read by `parse` and `sscanf!`.

  predicate IsDigit(c: char)
  {
    '0' <= c <= '9'
  }

  /** The length of the run of digits at the start of `s`. */
  function DigitSpan(s: string): (n: nat)
    ensures n <= |s| && forall i | 0 <= i < n :: IsDigit(s[i])
    ensures n < |s| ==> !IsDigit(s[n])
  {
    if s == [] || !IsDigit(s[0]) then 0 else 1 + DigitSpan(s[1..])
  }

  /** The value of a run of digits. */
  function DecimalValue(s: string): (v: nat)
  {
    if s == [] then 0 else 10 * DecimalValue(s[..|s| - 1]) + (if IsDigit(s[|s| - 1]) then s[|s| - 1] as int - '0' as int else 0)
  }

  /** The decimal digit `d`, and a natural number written in decimal. */
  function DigitChar(d: nat): (c: char)
    requires d < 10
    ensures '0' <= c <= '9'
  {
    (48 + d) as char
  }

  function NatToString(n: nat): (r: string)
    ensures |r| > 0
    decreases n
  {
    if n < 10 then [DigitChar(n)] else NatToString(n / 10) + [DigitChar(n % 10)]
  }

  lemma {:induction false} NatToStringStartsWithDigit(n: nat)
    ensures '0' <= NatToString(n)[0] <= '9'
    decreases n
  {
    if n >= 10 {
      NatToStringStartsWithDigit(n / 10);
    }
  }


  /** Every character of a printed natural number is a digit. */
  lemma {:induction false} NatToStringAllDigits(n: nat)
    ensures forall k | 0 <= k < |NatToString(n)| :: IsDigit(NatToString(n)[k])
    decreases n
  {
    if n >= 10 {
      NatToStringAllDigits(n / 10);
    }
  }

  /** Reading back a printed natural number gives the number. */
  lemma {:induction false} NatToStringValue(n: nat)
    ensures DecimalValue(NatToString(n)) == n
    decreases n
  {
    var s := NatToString(n);
    if n >= 10 {
      NatToStringValue(n / 10);
      assert s[..|s| - 1] == NatToString(n / 10);
    }
  }

  function Sum(s: seq<int>): int
  {
    if s == [] then 0 else s[0] + Sum(s[1..])
  }

  lemma {:induction false} SumAppend(a: seq<int>, b: seq<int>)
    ensures Sum(a + b) == Sum(a) + Sum(b)
  {
    if a == [] {
      assert a + b == b;
    } else {
      assert (a + b)[1..] == a[1..] + b;
      SumAppend(a[1..], b);
    }
  }

  lemma {:induction false} SumNonNegative(s: seq<int>)
    requires forall i :: 0 <= i < |s| ==> s[i] >= 0
    ensures Sum(s) >= 0
  {
    if s != [] {
      SumNonNegative(s[1..]);
    }
  }

  function Product(s: seq<int>): int
  {
    if s == [] then 1 else s[0] * Product(s[1..])
  }

  // ---------------------------------------------------------------------------
  // Insertion sort over an arbitrary comparison, and its uniqueness.

  ghost predicate TotalOrder<T(!new)>(le: (T, T) -> bool)
  {
    && (forall a, b :: le(a, b) || le(b, a))
    && (forall a, b :: le(a, b) && le(b, a) ==> a == b)
    && (forall a, b, c :: le(a, b) && le(b, c) ==> le(a, c))
  }

  ghost predicate Sorted<T>(s: seq<T>, le: (T, T) -> bool)
  {
    forall i, j :: 0 <= i < j < |s| ==> le(s[i], s[j])
  }

  function Insert<T>(x: T, s: seq<T>, le: (T, T) -> bool): (r: seq<T>)
    ensures |r| == |s| + 1
  {
    if s == [] then [x]
    else if le(x, s[0]) then [x] + s
    else [s[0]] + Insert(x, s[1..], le)
  }

  /** Insertion sort; for a total order the result is the unique sorted
      permutation of the input (see SortedUnique). */
  function Sort<T>(s: seq<T>, le: (T, T) -> bool): (r: seq<T>)
    ensures |r| == |s|
  {
    if s == [] then [] else Insert(s[0], Sort(s[1..], le), le)
  }

  lemma {:induction false} InsertPermutes<T>(x: T, s: seq<T>, le: (T, T) -> bool)
    ensures multiset(Insert(x, s, le)) == multiset(s) + multiset{x}
  {
    if s == [] {
      assert Insert(x, s, le) == [x];
    } else if le(x, s[0]) {
      assert Insert(x, s, le) == [x] + s;
    } else {
      var t := Insert(x, s[1..], le);
      InsertPermutes(x, s[1..], le);
      assert Insert(x, s, le) == [s[0]] + t;
      assert multiset([s[0]] + t) == multiset{s[0]} + multiset(t);
      assert s == [s[0]] + s[1..];
      assert multiset(s) == multiset{s[0]} + multiset(s[1..]);
    }
  }

  /** Sorting only reorders its input. */
  lemma {:induction false} SortPermutes<T>(s: seq<T>, le: (T, T) -> bool)
    ensures multiset(Sort(s, le)) == multiset(s)
  {
    if s != [] {
      SortPermutes(s[1..], le);
      InsertPermutes(s[0], Sort(s[1..], le), le);
      assert s == [s[0]] + s[1..];
    }
  }

  /** Inserting an element above a bound into a sequence above that bound
      keeps every element above it. */
  lemma {:induction false} InsertLowerBound<T>(x: T, s: seq<T>, le: (T, T) -> bool, b: T)
    requires le(b, x) && forall i :: 0 <= i < |s| ==> le(b, s[i])
    ensures forall i :: 0 <= i < |Insert(x, s, le)| ==> le(b, Insert(x, s, le)[i])
  {
    if s != [] && !le(x, s[0]) {
      InsertLowerBound(x, s[1..], le, b);
      var r := Insert(x, s, le);
      forall i | 0 <= i < |r| ensures le(b, r[i]) {
        if i > 0 {
          assert r[i] == Insert(x, s[1..], le)[i - 1];
        }
      }
    }
  }

  /** An element below every element of a sorted sequence can be put in
      front of it. */
  lemma ConsSorted<T>(h: T, t: seq<T>, le: (T, T) -> bool)
    requires Sorted(t, le) && forall i :: 0 <= i < |t| ==> le(h, t[i])
    ensures Sorted([h] + t, le)
  {
    var r := [h] + t;
    forall i, j | 0 <= i < j < |r| ensures le(r[i], r[j]) {
      assert r[j] == t[j - 1];
      if i > 0 {
        assert r[i] == t[i - 1];
      }
    }
  }

  lemma {:induction false} InsertSorted<T(!new)>(x: T, s: seq<T>, le: (T, T) -> bool)
    requires TotalOrder(le) && Sorted(s, le)
    ensures Sorted(Insert(x, s, le), le)
  {
    if s == [] {
    } else if le(x, s[0]) {
      ConsSorted(x, s, le);
    } else {
      assert le(s[0], x);
      assert Sorted(s[1..], le);
      InsertSorted(x, s[1..], le);
      InsertLowerBound(x, s[1..], le, s[0]);
      ConsSorted(s[0], Insert(x, s[1..], le), le);
    }
  }

  lemma {:induction false} SortSorted<T(!new)>(s: seq<T>, le: (T, T) -> bool)
    requires TotalOrder(le)
    ensures Sorted(Sort(s, le), le)
  {
    if s != [] {
      SortSorted(s[1..], le);
      InsertSorted(s[0], Sort(s[1..], le), le);
    }
  }

  /** The head of a sorted sequence is below every element of it. */
  lemma HeadIsLeast<T>(s: seq<T>, x: T, le: (T, T) -> bool)
    requires (forall a :: le(a, a)) && Sorted(s, le)
    requires x in multiset(s)
    ensures |s| > 0 && le(s[0], x)
  {
    var i :| 0 <= i < |s| && s[i] == x;
  }

  /** Removing the head of a sequence removes one copy from its multiset. */
  lemma TailMultiset<T>(s: seq<T>)
    requires |s| > 0
    ensures multiset(s[1..]) == multiset(s) - multiset{s[0]}
  {
    assert s == [s[0]] + s[1..];
  }

  /** Two sorted sequences that are permutations of each other are equal. */
  lemma {:induction false} SortedUnique<T(!new)>(a: seq<T>, b: seq<T>, le: (T, T) -> bool)
    requires TotalOrder(le)
    requires Sorted(a, le) && Sorted(b, le)
    requires multiset(a) == multiset(b)
    ensures a == b
  {
    if a != [] {
      assert forall x :: le(x, x);
      assert a[0] in multiset(a);
      HeadIsLeast(b, a[0], le);
      assert b[0] in multiset(b);
      HeadIsLeast(a, b[0], le);
      assert a[0] == b[0];
      TailMultiset(a);
      TailMultiset(b);
      assert Sorted(a[1..], le);
      assert Sorted(b[1..], le);
      SortedUnique(a[1..], b[1..], le);
      assert a == [a[0]] + a[1..];
      assert b == [b[0]] + b[1..];
    }
  }

  /** Sorting does not depend on the order of its input. */
  lemma SortPermutationInvariant<T(!new)>(a: seq<T>, b: seq<T>, le: (T, T) -> bool)
    requires TotalOrder(le)
    requires multiset(a) == multiset(b)
    ensures Sort(a, le) == Sort(b, le)
  {
    SortSorted(a, le);
    SortSorted(b, le);
    SortPermutes(a, le);
    SortPermutes(b, le);
    SortedUnique(Sort(a, le), Sort(b, le), le);
  }

  function IntLe(a: int, b: int): bool { a <= b }

  function IntGe(a: int, b: int): bool { a >= b }

  lemma IntOrders()
    ensures TotalOrder(IntLe) && TotalOrder(IntGe)
  {
  }

  /** Sorting integers with `<=` gives them in ascending order, with the
      same elements. */
  lemma SortInts(xs: seq<int>)
    ensures var r := Sort(xs, IntLe);
            && (forall i, j | 0 <= i < j < |r| :: r[i] <= r[j])
            && multiset(r) == multiset(xs)
            && (forall x :: x in r <==> x in xs)
  {
    IntOrders();
    SortSorted(xs, IntLe);
    SortPermutes(xs, IntLe);
    var r := Sort(xs, IntLe);
    forall x ensures x in r <==> x in xs {
      assert x in r <==> x in multiset(r);
      assert x in xs <==> x in multiset(xs);
    }
  }
}
