/** Day 16, part 1: the single-worker valve planner.

    Each minute the worker either walks through a tunnel (`GoTo`) or opens the
    valve it stands at (`Open`). The search `GetBestTotalForAction` is a
    depth-first recursion that memoises its results in a transposition cache
    keyed by a canonical string built from the action, the time and the set of
    opened valves. `Best` is the same recursion without the cache; the method
    is proved to return exactly `Best`, so the cache never changes an answer. */
module Day16Part1 {
  import opened Common

  datatype Valve = Valve(name: string, rate: int, connections: seq<string>)

  datatype Action = Open(name: string) | GoTo(name: string)

  // ---------------------------------------------------------------------------
  // Valve names and the valve table.

  predicate IsUpper(c: char) { 'A' <= c <= 'Z' }

  predicate IsDigitOrMinus(c: char) { '0' <= c <= '9' || c == '-' }

  /** The character classes the key reader scans for: the letters of a
      name, the characters of a number, and anything up to a comma. */
  datatype CharClass = Letters | Number | Field

  predicate InClass(c: char, k: CharClass)
  {
    match k
    case Letters => IsUpper(c)
    case Number => IsDigitOrMinus(c)
    case Field => c != ','
  }

  /** Every character of `s` is in class `k`. */
  predicate AllIn(s: string, k: CharClass)
  {
    |s| == 0 || (InClass(s[0], k) && AllIn(s[1..], k))
  }

  lemma {:induction false} LettersAreFields(s: string)
    requires AllIn(s, Letters)
    ensures AllIn(s, Field)
  {
    if |s| > 0 {
      LettersAreFields(s[1..]);
    }
  }

  /** Valve names are non-empty runs of capital letters. */
  predicate ValidName(n: string)
  {
    |n| > 0 && AllIn(n, Letters)
  }

  /** No element is listed twice. */
  predicate NoDup<T(==)>(s: seq<T>)
  {
    s == [] || (s[0] !in s[1..] && NoDup(s[1..]))
  }

  lemma {:induction false} NoDupAppend<T>(s: seq<T>, x: T)
    requires NoDup(s) && x !in s
    ensures NoDup(s + [x])
  {
    if s != [] {
      assert (s + [x])[1..] == s[1..] + [x];
      NoDupAppend(s[1..], x);
      assert s[0] != x;
    }
  }

  /** The first valve of the table with the given name (`iter().find`). */
  function FindValve(valves: seq<Valve>, name: string): (r: Option<Valve>)
    ensures r.Some? <==> name in Names(valves)
    ensures r.Some? ==> r.value in valves && r.value.name == name
  {
    if valves == [] then None
    else if valves[0].name == name then Some(valves[0])
    else FindValve(valves[1..], name)
  }

  function Names(valves: seq<Valve>): set<string>
  {
    set v | v in valves :: v.name
  }

  /** Every valve has a proper name. */
  predicate Named(valves: seq<Valve>)
  {
    forall v | v in valves :: ValidName(v.name)
  }

  /** Every valve has a proper name and every tunnel leads to a listed
      valve. */
  predicate WellFormed(valves: seq<Valve>)
  {
    Named(valves) &&
    forall v | v in valves :: forall j | 0 <= j < |v.connections| :: v.connections[j] in Names(valves)
  }

  function SetOf(s: seq<string>): set<string>
  {
    set x | x in s
  }

  lemma SetOfAppend(s: seq<string>, x: string)
    ensures SetOf(s + [x]) == SetOf(s) + {x}
  {
    assert forall y :: y in s + [x] <==> y in s || y == x;
  }

  // ---------------------------------------------------------------------------
  // Decimal integers, as `format!("{}", i)` writes them, and their reading.

  function IntToString(i: int): (r: string)
    ensures |r| > 0
  {
    if i < 0 then "-" + NatToString(-i) else NatToString(i)
  }

  lemma {:induction false} AllInAppend(a: string, b: string, k: CharClass)
    requires AllIn(a, k) && AllIn(b, k)
    ensures AllIn(a + b, k)
  {
    if |a| > 0 {
      assert (a + b)[1..] == a[1..] + b;
      AllInAppend(a[1..], b, k);
    } else {
      assert a + b == b;
    }
  }

  lemma {:induction false} NatToStringDigits(n: nat)
    ensures AllIn(NatToString(n), Number)
    decreases n
  {
    if n >= 10 {
      NatToStringDigits(n / 10);
      AllInAppend(NatToString(n / 10), [DigitChar(n % 10)], Number);
    }
  }

  /** A printed integer consists of digits and minus signs only. */
  lemma IntToStringDigits(i: int)
    ensures AllIn(IntToString(i), Number)
  {
    if i < 0 {
      NatToStringDigits(-i);
      assert IntToString(i)[1..] == NatToString(-i);
    } else {
      NatToStringDigits(i);
    }
  }

  function DecimalValue(s: string): int
  {
    if s == [] then 0 else 10 * DecimalValue(s[..|s| - 1]) + (s[|s| - 1] as int - 48)
  }

  function ParseInt(s: string): int
  {
    if |s| > 0 && s[0] == '-' then -DecimalValue(s[1..]) else DecimalValue(s)
  }

  lemma {:induction false} NatToStringRoundTrip(n: nat)
    ensures DecimalValue(NatToString(n)) == n
    decreases n
  {
    var s := NatToString(n);
    if n >= 10 {
      NatToStringRoundTrip(n / 10);
      assert s[..|s| - 1] == NatToString(n / 10);
    }
  }

  /** Reading back a printed integer gives the integer. */
  lemma {:induction false} IntToStringRoundTrip(i: int)
    ensures ParseInt(IntToString(i)) == i
  {
    if i < 0 {
      NatToStringRoundTrip(-i);
      assert IntToString(i)[1..] == NatToString(-i);
    } else {
      NatToStringRoundTrip(i);
      NatToStringStartsWithDigit(i);
    }
  }

  // ---------------------------------------------------------------------------
  // `join(",")` and splitting at commas.

  function Join(xs: seq<string>): string
  {
    if |xs| == 0 then "" else if |xs| == 1 then xs[0] else xs[0] + "," + Join(xs[1..])
  }

  /** The length of the longest prefix of `s` whose characters are in class `k`. */
  function SpanLen(s: string, k: CharClass): (n: nat)
    ensures n <= |s|
  {
    if s == [] || !InClass(s[0], k) then 0 else 1 + SpanLen(s[1..], k)
  }

  lemma {:induction false} SpanLenOfConcat(a: string, b: string, k: CharClass)
    requires AllIn(a, k)
    requires b == [] || !InClass(b[0], k)
    ensures SpanLen(a + b, k) == |a|
  {
    if a != [] {
      assert (a + b)[1..] == a[1..] + b;
      SpanLenOfConcat(a[1..], b, k);
    } else {
      assert a + b == b;
    }
  }

  function SplitComma(s: string): seq<string>
    decreases |s|
  {
    if s == [] then []
    else
      var n := SpanLen(s, Field);
      if n == |s| then [s] else [s[..n]] + SplitComma(s[n + 1..])
  }

  /** Splitting a joined list of names at the commas gives the list back. */
  lemma {:induction false} JoinRoundTrip(xs: seq<string>)
    requires forall i :: 0 <= i < |xs| ==> ValidName(xs[i])
    ensures SplitComma(Join(xs)) == xs
  {
    if |xs| == 1 {
      assert xs[0] + [] == xs[0];
      LettersAreFields(xs[0]);
      SpanLenOfConcat(xs[0], [], Field);
    } else if |xs| > 1 {
      var rest := "," + Join(xs[1..]);
      assert Join(xs) == xs[0] + rest;
      LettersAreFields(xs[0]);
      SpanLenOfConcat(xs[0], rest, Field);
      assert Join(xs)[..|xs[0]|] == xs[0];
      assert Join(xs)[|xs[0]| + 1..] == Join(xs[1..]);
      JoinRoundTrip(xs[1..]);
      assert xs == [xs[0]] + xs[1..];
    }
  }

  lemma {:induction false} JoinStart(xs: seq<string>)
    requires forall i :: 0 <= i < |xs| ==> ValidName(xs[i])
    ensures Join(xs) == [] || IsUpper(Join(xs)[0])
  {
    if |xs| > 0 {
      var x := xs[0];
      assert ValidName(x);
      assert InClass(x[0], Letters);
      if |xs| > 1 {
        assert Join(xs) == x + ("," + Join(xs[1..]));
      }
      assert Join(xs)[0] == x[0];
    }
  }

  // ---------------------------------------------------------------------------
  // Lexicographic order on strings (Rust's `Ord` for `String`).

  function StrLe(a: string, b: string): bool
  {
    if a == [] then true
    else if b == [] then false
    else if a[0] != b[0] then a[0] < b[0]
    else StrLe(a[1..], b[1..])
  }

  lemma {:induction false} StrLeTotal(a: string, b: string)
    ensures StrLe(a, b) || StrLe(b, a)
  {
    if a != [] && b != [] && a[0] == b[0] {
      StrLeTotal(a[1..], b[1..]);
    }
  }

  lemma {:induction false} StrLeAntisymmetric(a: string, b: string)
    requires StrLe(a, b) && StrLe(b, a)
    ensures a == b
  {
    if a != [] && b != [] {
      StrLeAntisymmetric(a[1..], b[1..]);
      assert a == [a[0]] + a[1..];
      assert b == [b[0]] + b[1..];
    }
  }

  lemma {:induction false} StrLeTransitive(a: string, b: string, c: string)
    requires StrLe(a, b) && StrLe(b, c)
    ensures StrLe(a, c)
  {
    if a != [] && b != [] && c != [] && a[0] == b[0] && b[0] == c[0] {
      StrLeTransitive(a[1..], b[1..], c[1..]);
    }
  }

  lemma StrLeTotalOrder()
    ensures TotalOrder(StrLe)
  {
    forall a, b ensures StrLe(a, b) || StrLe(b, a) { StrLeTotal(a, b); }
    forall a, b | StrLe(a, b) && StrLe(b, a) ensures a == b { StrLeAntisymmetric(a, b); }
    forall a, b, c | StrLe(a, b) && StrLe(b, c) ensures StrLe(a, c) { StrLeTransitive(a, b, c); }
  }

  // ---------------------------------------------------------------------------
  // The cache key.

  function ActionKeyPrefix(a: Action): string
  {
    (if a.Open? then "o" else "g") + a.name
  }

  /** `generate_cache_key`: the opened valves are listed in iteration order
      (`openedValves`), sorted and joined with commas; the time field is
      `minutesLeft - 1`. */
  function CacheKey(action: Action, minutesLeft: int, openedValves: seq<string>): string
  {
    ActionKeyPrefix(action) + IntToString(minutesLeft - 1) + Join(Sort(openedValves, StrLe))
  }

  /** Reads a cache key back into its action, time field and sorted names. */
  function ParseKey(k: string): Option<(Action, int, seq<string>)>
  {
    if |k| == 0 || (k[0] != 'o' && k[0] != 'g') then None
    else
      var rest := k[1..];
      var n := SpanLen(rest, Letters);
      var name := rest[..n];
      var rest2 := rest[n..];
      var t := SpanLen(rest2, Number);
      var action := if k[0] == 'o' then Open(name) else GoTo(name);
      Some((action, ParseInt(rest2[..t]), SplitComma(rest2[t..])))
  }

  lemma SortedNamesValid(openedValves: seq<string>)
    requires forall i :: 0 <= i < |openedValves| ==> ValidName(openedValves[i])
    ensures forall i :: 0 <= i < |Sort(openedValves, StrLe)| ==> ValidName(Sort(openedValves, StrLe)[i])
  {
    var s := Sort(openedValves, StrLe);
    SortPermutes(openedValves, StrLe);
    forall i | 0 <= i < |s| ensures ValidName(s[i]) {
      assert s[i] in multiset(s);
    }
  }

  /** The key can be read back: it determines the action, the time and the
      sorted list of opened valves. */
  lemma {:induction false} CacheKeyRoundTrip(action: Action, minutesLeft: int, openedValves: seq<string>)
    requires ValidName(action.name)
    requires forall i :: 0 <= i < |openedValves| ==> ValidName(openedValves[i])
    ensures ParseKey(CacheKey(action, minutesLeft, openedValves))
            == Some((action, minutesLeft - 1, Sort(openedValves, StrLe)))
  {
    var sorted := Sort(openedValves, StrLe);
    SortedNamesValid(openedValves);
    var num := IntToString(minutesLeft - 1);
    var joined := Join(sorted);
    IntToStringDigits(minutesLeft - 1);
    assert InClass(num[0], Number);
    var k := CacheKey(action, minutesLeft, openedValves);
    assert k == [k[0]] + action.name + (num + joined);
    var rest := k[1..];
    assert rest == action.name + (num + joined);
    SpanLenOfConcat(action.name, num + joined, Letters);
    assert rest[..|action.name|] == action.name;
    var rest2 := rest[|action.name|..];
    assert rest2 == num + joined;
    JoinStart(sorted);
    SpanLenOfConcat(num, joined, Number);
    assert rest2[..|num|] == num;
    assert rest2[|num|..] == joined;
    IntToStringRoundTrip(minutesLeft - 1);
    JoinRoundTrip(sorted);
  }

  /** Equal keys come only from the same action, the same time and the same
      set of opened valves; in particular `Open(v)` and `GoTo(v)` never
      collide. */
  lemma CacheKeyInjective(a1: Action, m1: int, o1: seq<string>, a2: Action, m2: int, o2: seq<string>)
    requires ValidName(a1.name) && ValidName(a2.name)
    requires forall i :: 0 <= i < |o1| ==> ValidName(o1[i])
    requires forall i :: 0 <= i < |o2| ==> ValidName(o2[i])
    requires CacheKey(a1, m1, o1) == CacheKey(a2, m2, o2)
    ensures a1 == a2 && m1 == m2 && multiset(o1) == multiset(o2)
  {
    CacheKeyRoundTrip(a1, m1, o1);
    CacheKeyRoundTrip(a2, m2, o2);
    SortPermutes(o1, StrLe);
    SortPermutes(o2, StrLe);
  }

  lemma {:induction false} NoDupMultiset(s: seq<string>)
    requires NoDup(s)
    ensures forall x :: multiset(s)[x] == if x in s then 1 else 0
  {
    if s != [] {
      assert s == [s[0]] + s[1..];
      assert s[0] !in s[1..];
      NoDupMultiset(s[1..]);
    }
  }

  /** The key does not depend on the iteration order of the opened set: two
      duplicate-free listings of the same set give the same key. */
  lemma CacheKeyOrderIndependent(action: Action, minutesLeft: int, o1: seq<string>, o2: seq<string>)
    requires NoDup(o1) && NoDup(o2) && SetOf(o1) == SetOf(o2)
    ensures CacheKey(action, minutesLeft, o1) == CacheKey(action, minutesLeft, o2)
  {
    NoDupMultiset(o1);
    NoDupMultiset(o2);
    assert forall x :: x in o1 <==> x in SetOf(o1);
    assert forall x :: x in o2 <==> x in SetOf(o2);
    assert multiset(o1) == multiset(o2);
    StrLeTotalOrder();
    SortPermutationInvariant(o1, o2, StrLe);
  }

  // ---------------------------------------------------------------------------
  // The search, without the cache.

  function PathTag(a: Action): string
  {
    (if a.Open? then "O" else "G") + a.name
  }

  /** `get_best_total_for_action` without memoisation: the pressure released
      from now on and the path that releases it, or none when the search
      panics. The source hands each call a reference to its valve, found by
      the caller with `find(...).unwrap()`; a name missing from the table is
      that panic. */
  function Best(valves: seq<Valve>, a: Action, minutesLeft: nat, openedValves: set<string>): Option<(int, string)>
    decreases minutesLeft, 2
  {
    if FindValve(valves, a.name).None? then None
    else if minutesLeft == 0 then Some((0, "-"))
    else
      match BestChild(valves, a.name, minutesLeft, OpenedAfter(a, openedValves))
      case None => None
      case Some(best) => Some((Released(valves, a, minutesLeft) + best.0, PathTag(a) + best.1))
  }

  /** The pressure a move releases from now on: opening a valve releases its
      rate in each of the minutes left after the one spent opening it. */
  function Released(valves: seq<Valve>, a: Action, minutesLeft: nat): int
    requires FindValve(valves, a.name).Some?
  {
    if a.Open? then (minutesLeft - 1) * FindValve(valves, a.name).value.rate else 0
  }

  /** The valves open once the move is made. */
  function OpenedAfter(a: Action, openedValves: set<string>): set<string>
  {
    if a.Open? then openedValves + {a.name} else openedValves
  }

  /** The best child of a move to (or opening of) valve `name`: the tunnels
      in listing order, then opening the valve when it has a rate and is still
      closed; a later child wins only with a strictly greater total. Any
      child that panics makes the move panic. */
  function BestChild(valves: seq<Valve>, name: string, minutesLeft: nat, openedNow: set<string>): Option<(int, string)>
    requires FindValve(valves, name).Some? && minutesLeft >= 1
    decreases minutesLeft, 1
  {
    var v := FindValve(valves, name).value;
    var afterTunnels := FoldGoTo(valves, v.connections, minutesLeft, openedNow, (-1, ""));
    if afterTunnels.None? then None
    else if v.rate != 0 && name !in openedNow then
      var sub := Best(valves, Open(name), minutesLeft - 1, openedNow);
      if sub.None? then None
      else if sub.value.0 > afterTunnels.value.0 then sub else afterTunnels
    else afterTunnels
  }

  /** The loop over the tunnels: a child replaces the best so far only when
      its total is strictly greater; a tunnel to a missing valve, or a child
      that panics, makes the loop panic. */
  function FoldGoTo(valves: seq<Valve>, names: seq<string>, minutesLeft: nat,
                    openedValves: set<string>, acc: (int, string)): Option<(int, string)>
    requires minutesLeft >= 1
    decreases minutesLeft, 0, |names|
  {
    if names == [] then Some(acc)
    else
      var sub := Best(valves, GoTo(names[0]), minutesLeft - 1, openedValves);
      if sub.None? then None
      else FoldGoTo(valves, names[1..], minutesLeft, openedValves, if sub.value.0 > acc.0 then sub.value else acc)
  }

  /** One tunnel of the loop over the tunnels: it panics when the child
      does and otherwise goes on with the better of the two. */
  lemma FoldGoToStep(valves: seq<Valve>, names: seq<string>, i: nat, minutesLeft: nat,
                     openedValves: set<string>, acc: (int, string))
    requires minutesLeft >= 1 && i < |names|
    ensures var sub := Best(valves, GoTo(names[i]), minutesLeft - 1, openedValves);
            FoldGoTo(valves, names[i..], minutesLeft, openedValves, acc)
            == if sub.None? then None
               else FoldGoTo(valves, names[i + 1..], minutesLeft, openedValves,
                             if sub.value.0 > acc.0 then sub.value else acc)
  {
    assert names[i..][0] == names[i] && names[i..][1..] == names[i + 1..];
  }

  /** Every tunnel of `names` leads to a search that does not panic. */
  ghost predicate AllDefined(valves: seq<Valve>, names: seq<string>, minutesLeft: nat, openedValves: set<string>)
    requires minutesLeft >= 1
  {
    forall j | 0 <= j < |names| :: Best(valves, GoTo(names[j]), minutesLeft - 1, openedValves).Some?
  }

  /** The loop over the tunnels panics exactly when one of its children
      does, whatever the best so far. */
  lemma {:induction false} FoldGoToDefined(valves: seq<Valve>, names: seq<string>, minutesLeft: nat,
                                           openedValves: set<string>, acc: (int, string))
    requires minutesLeft >= 1
    ensures FoldGoTo(valves, names, minutesLeft, openedValves, acc).Some?
            <==> AllDefined(valves, names, minutesLeft, openedValves)
    decreases |names|
  {
    if names != [] {
      var sub := Best(valves, GoTo(names[0]), minutesLeft - 1, openedValves);
      if sub.Some? {
        FoldGoToDefined(valves, names[1..], minutesLeft, openedValves, if sub.value.0 > acc.0 then sub.value else acc);
        if AllDefined(valves, names[1..], minutesLeft, openedValves) {
          forall j | 0 <= j < |names| ensures Best(valves, GoTo(names[j]), minutesLeft - 1, openedValves).Some? {
            if j > 0 { assert names[j] == names[1..][j - 1]; }
          }
        } else {
          var j :| 0 <= j < |names[1..]| && Best(valves, GoTo(names[1..][j]), minutesLeft - 1, openedValves).None?;
          assert names[1..][j] == names[j + 1];
        }
      }
    }
  }

  /** The results of the children of a move, tunnels first in listing order,
      then opening the current valve when that is allowed. */
  ghost function ChildResults(valves: seq<Valve>, name: string, minutesLeft: nat, openedNow: set<string>): seq<(int, string)>
    requires FindValve(valves, name).Some? && minutesLeft >= 1
    requires BestChild(valves, name, minutesLeft, openedNow).Some?
  {
    var v := FindValve(valves, name).value;
    FoldGoToDefined(valves, v.connections, minutesLeft, openedNow, (-1, ""));
    TunnelResults(valves, v.connections, minutesLeft, openedNow)
      + if v.rate != 0 && name !in openedNow
        then [Best(valves, Open(name), minutesLeft - 1, openedNow).value] else []
  }

  ghost function TunnelResults(valves: seq<Valve>, names: seq<string>, minutesLeft: nat, openedValves: set<string>): (rs: seq<(int, string)>)
    requires minutesLeft >= 1 && AllDefined(valves, names, minutesLeft, openedValves)
    ensures |rs| == |names|
  {
    if names == [] then []
    else
      assert Best(valves, GoTo(names[0]), minutesLeft - 1, openedValves).Some?;
      assert forall j | 0 <= j < |names[1..]| :: names[1..][j] == names[j + 1];
      [Best(valves, GoTo(names[0]), minutesLeft - 1, openedValves).value]
        + TunnelResults(valves, names[1..], minutesLeft, openedValves)
  }

  /** The choice rule: strictly-greater replacement starting from `acc`. */
  ghost function PickFirstBest(rs: seq<(int, string)>, acc: (int, string)): (int, string)
  {
    if rs == [] then acc else PickFirstBest(rs[1..], if rs[0].0 > acc.0 then rs[0] else acc)
  }

  lemma {:induction false} FoldGoToPicks(valves: seq<Valve>, names: seq<string>, minutesLeft: nat,
                                          openedValves: set<string>, acc: (int, string))
    requires minutesLeft >= 1 && AllDefined(valves, names, minutesLeft, openedValves)
    ensures FoldGoTo(valves, names, minutesLeft, openedValves, acc)
            == Some(PickFirstBest(TunnelResults(valves, names, minutesLeft, openedValves), acc))
    decreases |names|
  {
    if names != [] {
      var sub := Best(valves, GoTo(names[0]), minutesLeft - 1, openedValves);
      assert sub.Some?;
      assert forall j | 0 <= j < |names[1..]| :: names[1..][j] == names[j + 1];
      FoldGoToPicks(valves, names[1..], minutesLeft, openedValves, if sub.value.0 > acc.0 then sub.value else acc);
    }
  }

  /** A tunnel to a valve missing from the table panics, as
      `find(...).unwrap()` does. */
  lemma MissingTunnelPanics(valves: seq<Valve>, a: Action, minutesLeft: nat, openedValves: set<string>, j: nat)
    requires FindValve(valves, a.name).Some? && minutesLeft >= 1
    requires j < |FindValve(valves, a.name).value.connections|
    requires FindValve(valves, FindValve(valves, a.name).value.connections[j]).None?
    ensures Best(valves, a, minutesLeft, openedValves).None?
  {
    var v := FindValve(valves, a.name).value;
    FoldGoToDefined(valves, v.connections, minutesLeft, OpenedAfter(a, openedValves), (-1, ""));
  }

  /** On a table whose tunnels all lead to listed valves the search never
      panics. */
  lemma {:induction false} WellFormedNeverPanics(valves: seq<Valve>, a: Action, minutesLeft: nat, openedValves: set<string>)
    requires WellFormed(valves) && FindValve(valves, a.name).Some?
    ensures Best(valves, a, minutesLeft, openedValves).Some?
    decreases minutesLeft
  {
    if minutesLeft > 0 {
      var v := FindValve(valves, a.name).value;
      var now := OpenedAfter(a, openedValves);
      forall j | 0 <= j < |v.connections| ensures Best(valves, GoTo(v.connections[j]), minutesLeft - 1, now).Some? {
        WellFormedNeverPanics(valves, GoTo(v.connections[j]), minutesLeft - 1, now);
      }
      FoldGoToDefined(valves, v.connections, minutesLeft, now, (-1, ""));
      WellFormedNeverPanics(valves, Open(a.name), minutesLeft - 1, now);
    }
  }

  lemma {:induction false} PickFirstBestAppend(rs: seq<(int, string)>, x: (int, string), acc: (int, string))
    ensures PickFirstBest(rs + [x], acc)
            == var p := PickFirstBest(rs, acc); if x.0 > p.0 then x else p
  {
    if rs != [] {
      assert (rs + [x])[1..] == rs[1..] + [x];
      PickFirstBestAppend(rs[1..], x, if rs[0].0 > acc.0 then rs[0] else acc);
    }
  }

  lemma {:induction false} TunnelResultAt(valves: seq<Valve>, names: seq<string>, minutesLeft: nat,
                                          openedValves: set<string>, j: nat)
    requires minutesLeft >= 1 && AllDefined(valves, names, minutesLeft, openedValves)
    requires j < |names|
    ensures TunnelResults(valves, names, minutesLeft, openedValves)[j]
            == Best(valves, GoTo(names[j]), minutesLeft - 1, openedValves).value
    decreases j
  {
    if j > 0 {
      assert forall i | 0 <= i < |names[1..]| :: names[1..][i] == names[i + 1];
      TunnelResultAt(valves, names[1..], minutesLeft, openedValves, j - 1);
    }
  }

  /** `p` is `base` or the first entry of `rs` with the largest total above
      `base`'s, and no entry exceeds it. */
  ghost predicate FirstMaximum(rs: seq<(int, string)>, base: (int, string), p: (int, string))
  {
    && p.0 >= base.0
    && (forall j :: 0 <= j < |rs| ==> rs[j].0 <= p.0)
    && (p == base || exists i :: 0 <= i < |rs| && p == rs[i] && rs[i].0 > base.0
                                 && forall j :: 0 <= j < i ==> rs[j].0 < rs[i].0)
  }

  /** `r` adds `own` to the total and prefixes `tag` to the path of the first
      best of `rs` above -1, or ends the path at `tag` with sub-total -1. */
  ghost predicate ChoiceResult(rs: seq<(int, string)>, own: int, tag: string, r: (int, string))
  {
    && r.0 - own >= -1
    && (forall j :: 0 <= j < |rs| ==> own + rs[j].0 <= r.0)
    && (r == (own - 1, tag)
        || exists i :: 0 <= i < |rs| && r == (own + rs[i].0, tag + rs[i].1)
                       && rs[i].0 > -1 && forall j :: 0 <= j < i ==> rs[j].0 < rs[i].0)
  }

  /** The choice rule keeps the start value or picks the first entry with the
      largest total, and that total bounds every entry. */
  lemma {:induction false} PickFirstBestIsFirstMaximum(rs: seq<(int, string)>, acc: (int, string))
    ensures FirstMaximum(rs, acc, PickFirstBest(rs, acc))
  {
    if rs != [] {
      var acc1 := if rs[0].0 > acc.0 then rs[0] else acc;
      PickFirstBestIsFirstMaximum(rs[1..], acc1);
      var p := PickFirstBest(rs, acc);
      assert p == PickFirstBest(rs[1..], acc1);
      forall j | 0 <= j < |rs| ensures rs[j].0 <= p.0 {
        if j > 0 { assert rs[j] == rs[1..][j - 1]; }
      }
      if p != acc {
        if p == acc1 {
          assert p == rs[0] && rs[0].0 > acc.0;
        } else {
          var i :| 0 <= i < |rs[1..]| && p == rs[1..][i] && rs[1..][i].0 > acc1.0
                   && forall j :: 0 <= j < i ==> rs[1..][j].0 < rs[1..][i].0;
          assert p == rs[i + 1];
          forall j | 0 <= j < i + 1 ensures rs[j].0 < rs[i + 1].0 {
            if j > 0 { assert rs[j] == rs[1..][j - 1]; }
          }
        }
      }
    }
  }

  /** The best child, when the children do not panic, is the choice rule
      applied to them in order. */
  lemma BestChildPicks(valves: seq<Valve>, name: string, minutesLeft: nat, openedNow: set<string>)
    requires FindValve(valves, name).Some? && minutesLeft >= 1
    requires BestChild(valves, name, minutesLeft, openedNow).Some?
    ensures BestChild(valves, name, minutesLeft, openedNow)
            == Some(PickFirstBest(ChildResults(valves, name, minutesLeft, openedNow), (-1, "")))
  {
    var v := FindValve(valves, name).value;
    FoldGoToDefined(valves, v.connections, minutesLeft, openedNow, (-1, ""));
    var ts := TunnelResults(valves, v.connections, minutesLeft, openedNow);
    FoldGoToPicks(valves, v.connections, minutesLeft, openedNow, (-1, ""));
    if v.rate != 0 && name !in openedNow {
      var sub := Best(valves, Open(name), minutesLeft - 1, openedNow).value;
      PickFirstBestAppend(ts, sub, (-1, ""));
    } else {
      assert ChildResults(valves, name, minutesLeft, openedNow) == ts;
    }
  }

  /** What the search returns when it does not panic: the move's own
      contribution (the pressure an opened valve releases over the remaining
      minutes) plus the best child total, where the best child is the first
      one with the largest total above -1; with no such child the sub-total
      is -1 and the path ends at this move. */
  lemma BestChoosesFirstMaximum(valves: seq<Valve>, a: Action, minutesLeft: nat, openedValves: set<string>)
    requires minutesLeft >= 1 && Best(valves, a, minutesLeft, openedValves).Some?
    ensures FindValve(valves, a.name).Some?
    ensures BestChild(valves, a.name, minutesLeft, OpenedAfter(a, openedValves)).Some?
    ensures ChoiceResult(ChildResults(valves, a.name, minutesLeft, OpenedAfter(a, openedValves)),
                         Released(valves, a, minutesLeft), PathTag(a), Best(valves, a, minutesLeft, openedValves).value)
  {
    var rs := ChildResults(valves, a.name, minutesLeft, OpenedAfter(a, openedValves));
    BestChildPicks(valves, a.name, minutesLeft, OpenedAfter(a, openedValves));
    PickFirstBestIsFirstMaximum(rs, (-1, ""));
    ChoiceOutcome(rs, Released(valves, a, minutesLeft), PathTag(a), Best(valves, a, minutesLeft, openedValves).value);
  }

  /** The outcome of adding `own` and prefixing `tag` to the choice rule's
      pick among `rs`. */
  lemma ChoiceOutcome(rs: seq<(int, string)>, own: int, tag: string, r: (int, string))
    requires FirstMaximum(rs, (-1, ""), PickFirstBest(rs, (-1, "")))
    requires var p := PickFirstBest(rs, (-1, "")); r == (own + p.0, tag + p.1)
    ensures ChoiceResult(rs, own, tag, r)
  {
    var p := PickFirstBest(rs, (-1, ""));
    if p == (-1, "") {
      assert tag + "" == tag;
    } else {
      var i :| 0 <= i < |rs| && p == rs[i] && rs[i].0 > -1 && forall j :: 0 <= j < i ==> rs[j].0 < rs[i].0;
      assert r == (own + rs[i].0, tag + rs[i].1);
    }
  }

  /** `BestChild` from the result of the tunnels and, when the valve can be
      opened, the result of opening it. */
  lemma BestChildOf(valves: seq<Valve>, name: string, minutesLeft: nat, openedNow: set<string>,
                    current: Valve, tunnels: (int, string), best: Option<(int, string)>)
    requires minutesLeft >= 1 && FindValve(valves, name) == Some(current)
    requires Some(tunnels) == FoldGoTo(valves, current.connections, minutesLeft, openedNow, (-1, ""))
    requires current.rate != 0 && name !in openedNow ==>
               var sub := Best(valves, Open(name), minutesLeft - 1, openedNow);
               best == if sub.None? then None else if sub.value.0 > tunnels.0 then sub else Some(tunnels)
    requires !(current.rate != 0 && name !in openedNow) ==> best == Some(tunnels)
    ensures best == BestChild(valves, name, minutesLeft, openedNow)
  {
  }

  // ---------------------------------------------------------------------------
  // The memoised search.

  /** A call of the search: its action, the minutes left and the opened valves
      it was given, in iteration order. */
  datatype State = State(action: Action, minutes: nat, openedValves: seq<string>)

  function NewOpened(a: Action, openedValves: seq<string>): seq<string>
  {
    if a.Open? then openedValves + [a.name] else openedValves
  }

  /** The key under which a call stores its result. */
  function KeyOf(s: State): string
  {
    CacheKey(s.action, s.minutes, NewOpened(s.action, s.openedValves))
  }

  /** The key of the `GoTo` call that explores opening `s`'s valve. */
  function ParentKey(s: State): string
  {
    CacheKey(GoTo(s.action.name), s.minutes + 1, s.openedValves)
  }

  predicate ValidOpened(o: seq<string>)
  {
    NoDup(o) && forall i :: 0 <= i < |o| ==> ValidName(o[i])
  }

  predicate ValidState(valves: seq<Valve>, s: State)
  {
    && ValidName(s.action.name)
    && FindValve(valves, s.action.name).Some?
    && ValidOpened(s.openedValves)
    && (s.action.Open? ==> s.action.name !in s.openedValves)
  }

  ghost function BestOf(valves: seq<Valve>, s: State): Option<(int, string)>
  {
    Best(valves, s.action, s.minutes, SetOf(s.openedValves))
  }

  /** One step of `Best` for a call, phrased with the values the memoised
      search computes: the valve reached, the pressure opening it releases,
      the opened list handed to the children and the best child. */
  lemma BestUnfold(valves: seq<Valve>, me: State, current: Valve, total: int,
                   newOpened: seq<string>, subTotal: int, subPath: string, result: int, path: string)
    requires Named(valves) && ValidState(valves, me) && me.minutes >= 1
    requires current == FindValve(valves, me.action.name).value
    requires total == if me.action.Open? then (me.minutes - 1) * current.rate else 0
    requires newOpened == NewOpened(me.action, me.openedValves)
    requires Some((subTotal, subPath)) == BestChild(valves, me.action.name, me.minutes, SetOf(newOpened))
    requires result == total + subTotal && path == PathTag(me.action) + subPath
    ensures BestOf(valves, me) == Some((result, path))
  {
    NewOpenedSet(me);
  }

  /** A call whose best child panics panics too. */
  lemma BestUnfoldNone(valves: seq<Valve>, me: State, newOpened: seq<string>)
    requires ValidState(valves, me) && me.minutes >= 1
    requires newOpened == NewOpened(me.action, me.openedValves)
    requires BestChild(valves, me.action.name, me.minutes, SetOf(newOpened)).None?
    ensures BestOf(valves, me).None?
  {
    NewOpenedSet(me);
  }

  /** The list handed to the children is a valid opened list ... */
  lemma NewOpenedValid(s: State)
    requires ValidName(s.action.name) && ValidOpened(s.openedValves)
    requires s.action.Open? ==> s.action.name !in s.openedValves
    ensures ValidOpened(NewOpened(s.action, s.openedValves))
  {
    if s.action.Open? {
      NoDupAppend(s.openedValves, s.action.name);
    }
  }

  /** ... and lists the opened set of `Best`. */
  lemma NewOpenedSet(s: State)
    ensures SetOf(NewOpened(s.action, s.openedValves))
            == if s.action.Open? then SetOf(s.openedValves) + {s.action.name} else SetOf(s.openedValves)
  {
    if s.action.Open? {
      SetOfAppend(s.openedValves, s.action.name);
    }
  }

  lemma SameMultisetSameSet(a: seq<string>, b: seq<string>)
    requires multiset(a) == multiset(b)
    ensures SetOf(a) == SetOf(b)
  {
    forall x ensures x in SetOf(a) <==> x in SetOf(b) {
      assert x in a <==> x in multiset(a);
      assert x in b <==> x in multiset(b);
    }
  }

  /** Two calls with the same key are the same call up to the order in which
      the opened valves are listed, so they have the same result. */
  lemma KeyOfInjective(valves: seq<Valve>, s1: State, s2: State)
    requires Named(valves) && ValidState(valves, s1) && ValidState(valves, s2)
    requires KeyOf(s1) == KeyOf(s2)
    ensures s1.action == s2.action && s1.minutes == s2.minutes
    ensures SetOf(s1.openedValves) == SetOf(s2.openedValves)
  {
    NewOpenedValid(s1);
    NewOpenedValid(s2);
    NewOpenedSet(s1);
    NewOpenedSet(s2);
    var n1 := NewOpened(s1.action, s1.openedValves);
    var n2 := NewOpened(s2.action, s2.openedValves);
    CacheKeyInjective(s1.action, s1.minutes, n1, s2.action, s2.minutes, n2);
    SameMultisetSameSet(n1, n2);
    if s1.action.Open? {
      var name := s1.action.name;
      assert SetOf(s1.openedValves) == SetOf(n1) - {name};
      assert SetOf(s2.openedValves) == SetOf(n2) - {name};
    }
  }

  /** A call's key is not among the keys of calls with more minutes left. */
  /** The calls still running above a call with `minutes` minutes left:
      each is a proper call, stored under its own key, with more minutes
      left. */
  ghost predicate Above(valves: seq<Valve>, calls: map<string, State>, minutes: int)
  {
    forall k | k in calls :: KeyOf(calls[k]) == k && ValidState(valves, calls[k]) && calls[k].minutes > minutes
  }

  /** A running call joins the calls above its children. */
  lemma AboveAdd(valves: seq<Valve>, calls: map<string, State>, me: State)
    requires Above(valves, calls, me.minutes) && ValidState(valves, me)
    ensures Above(valves, calls[KeyOf(me) := me], me.minutes - 1)
  {
  }

  lemma KeyNotAmongLonger(valves: seq<Valve>, me: State, calls: map<string, State>)
    requires Named(valves) && ValidState(valves, me)
    requires Above(valves, calls, me.minutes)
    ensures KeyOf(me) !in calls
  {
    if KeyOf(me) in calls {
      KeyOfInjective(valves, calls[KeyOf(me)], me);
    }
  }

  /** A key of the form of an `Open` call's key comes only from an `Open`
      call, and its list of opened valves contains the valve opened. */
  lemma OpenKeyListsValve(s: State, name: string, minutesLeft: int, openedValves: seq<string>)
    requires ValidName(s.action.name) && ValidOpened(s.openedValves)
    requires s.action.Open? ==> s.action.name !in s.openedValves
    requires ValidName(name) && ValidOpened(openedValves)
    requires KeyOf(s) == CacheKey(Open(name), minutesLeft, openedValves)
    ensures name in openedValves
  {
    var n := NewOpened(s.action, s.openedValves);
    NewOpenedValid(s);
    CacheKeyInjective(s.action, s.minutes, n, Open(name), minutesLeft, openedValves);
    assert n[|n| - 1] == name;
    assert name in multiset(n);
  }

  /** A stored call with the key of opening `me`'s valve was explored from
      a call with `me`'s key. */
  lemma OpenEntryParent(valves: seq<Valve>, other: State, me: State)
    requires Named(valves) && ValidState(valves, other) && ValidState(valves, me)
    requires me.action.GoTo? && me.minutes >= 1 && me.action.name !in me.openedValves
    requires KeyOf(other) == KeyOf(State(Open(me.action.name), me.minutes - 1, me.openedValves))
    ensures other.action.Open? && ParentKey(other) == KeyOf(me)
  {
    var child := State(Open(me.action.name), me.minutes - 1, me.openedValves);
    KeyOfInjective(valves, other, child);
    var goTo := GoTo(me.action.name);
    assert other.action.name == me.action.name && other.minutes + 1 == me.minutes;
    assert ParentKey(other) == CacheKey(goTo, me.minutes, other.openedValves);
    assert me.action == goTo && NewOpened(me.action, me.openedValves) == me.openedValves;
    CacheKeyOrderIndependent(goTo, me.minutes, other.openedValves, me.openedValves);
  }

  /** A cache whose every entry `k` was stored by the call `calls[k]`, a
      proper call with time left whose key is `k`, and holds that call's
      result. */
  ghost predicate CacheHolds(valves: seq<Valve>, cache: map<string, (int, string)>, calls: map<string, State>)
  {
    && Named(valves)
    && cache.Keys == calls.Keys
    && forall k | k in calls ::
         && ValidState(valves, calls[k])
         && calls[k].minutes >= 1
         && KeyOf(calls[k]) == k
         && Some(cache[k]) == BestOf(valves, calls[k])
  }

  /** Every stored `Open` call has its parent `GoTo` call stored or among
      `active`. */
  ghost predicate ParentsKnown(cache: map<string, (int, string)>, calls: map<string, State>, active: set<string>)
  {
    forall k | k in calls && calls[k].action.Open? ::
      ParentKey(calls[k]) in cache || ParentKey(calls[k]) in active
  }

  /** Storing a finished call's result keeps the cache correct. */
  lemma StoreKeepsCache(valves: seq<Valve>, cache: map<string, (int, string)>, calls: map<string, State>,
                        me: State, value: (int, string))
    requires CacheHolds(valves, cache, calls) && ValidState(valves, me) && me.minutes >= 1
    requires Some(value) == BestOf(valves, me) && KeyOf(me) !in cache
    ensures CacheHolds(valves, cache[KeyOf(me) := value], calls[KeyOf(me) := me])
  {
    var key := KeyOf(me);
    var cache', calls' := cache[key := value], calls[key := me];
    forall k | k in calls'
      ensures && ValidState(valves, calls'[k]) && calls'[k].minutes >= 1
              && KeyOf(calls'[k]) == k && Some(cache'[k]) == BestOf(valves, calls'[k])
    {
      if k != key {
        assert calls'[k] == calls[k] && cache'[k] == cache[k];
      }
    }
  }

  /** Storing a finished call takes it off the running calls. */
  lemma StoreKeepsParents(cache: map<string, (int, string)>, calls: map<string, State>, active: set<string>,
                          me: State, value: (int, string))
    requires ParentsKnown(cache, calls, active + {KeyOf(me)})
    requires me.action.Open? ==> ParentKey(me) in active
    ensures ParentsKnown(cache[KeyOf(me) := value], calls[KeyOf(me) := me], active)
  {
  }

  /** The calls stored between two points of the search: every entry of
      `before` is kept, and every new entry is a call with fewer than
      `minutes` minutes left or the call `top` itself. */
  ghost predicate Grows(before: map<string, State>, after: map<string, State>, minutes: int, top: State)
  {
    && (forall k | k in before :: k in after && after[k] == before[k])
    && (forall k | k in after && k !in before :: after[k].minutes < minutes || after[k] == top)
  }

  /** The same for the loop over the tunnels of a call with `minutes + 1`
      minutes left: new entries are calls below the tunnels, or tunnel moves
      themselves. */
  ghost predicate GrowsByTunnels(before: map<string, State>, after: map<string, State>, minutes: int)
  {
    && (forall k | k in before :: k in after && after[k] == before[k])
    && (forall k | k in after && k !in before ::
          after[k].minutes < minutes || (after[k].minutes == minutes && after[k].action.GoTo?))
  }

  lemma GrowsTrans(a: map<string, State>, b: map<string, State>, c: map<string, State>, minutes: int, top: State)
    requires Grows(a, b, minutes, top) && Grows(b, c, minutes, top)
    ensures Grows(a, c, minutes, top)
  {
  }

  /** Growth below a call is growth below any call with more time left. */
  lemma GrowsBelow(before: map<string, State>, after: map<string, State>, minutes: int, top: State,
                   minutes2: int, top2: State)
    requires Grows(before, after, minutes, top) && minutes <= minutes2 && top.minutes < minutes2
    ensures Grows(before, after, minutes2, top2)
  {
  }

  lemma TunnelGrowth(before: map<string, State>, after: map<string, State>, minutes: int, top: State)
    requires GrowsByTunnels(before, after, minutes)
    ensures Grows(before, after, minutes + 1, top)
  {
  }

  /** Exploring one more tunnel move keeps the loop's growth. */
  lemma TunnelStep(a: map<string, State>, b: map<string, State>, c: map<string, State>, child: State)
    requires GrowsByTunnels(a, b, child.minutes) && Grows(b, c, child.minutes, child) && child.action.GoTo?
    ensures GrowsByTunnels(a, c, child.minutes)
  {
  }

  /** Storing a call not yet stored is growth by that call. */
  lemma StoreGrows(calls: map<string, State>, me: State)
    requires KeyOf(me) !in calls
    ensures Grows(calls, calls[KeyOf(me) := me], me.minutes, me)
  {
  }

  /** Exploring a tunnel move of `me` stores neither `me` nor the move
      opening `me`'s valve, whose keys differ from every key it stores. */
  lemma TunnelStaysUnstored(valves: seq<Valve>, cache: map<string, (int, string)>, states: map<string, State>,
                            before: map<string, State>, me: State, current: Valve, newOpened: seq<string>,
                            child: State)
    requires CacheHolds(valves, cache, states) && ValidState(valves, me) && me.minutes >= 1
    requires current == FindValve(valves, me.action.name).value && ValidOpened(newOpened)
    requires child.minutes == me.minutes - 1 && child.action.GoTo?
    requires Grows(before, states, child.minutes, child)
    requires KeyOf(me) !in before
    requires current.rate != 0 && current.name !in newOpened ==>
               KeyOf(State(Open(current.name), me.minutes - 1, newOpened)) !in before
    ensures KeyOf(me) !in cache
    ensures current.rate != 0 && current.name !in newOpened ==>
              KeyOf(State(Open(current.name), me.minutes - 1, newOpened)) !in cache
  {
    if KeyOf(me) in states {
      KeyOfInjective(valves, states[KeyOf(me)], me);
    }
    var openChild := State(Open(current.name), me.minutes - 1, newOpened);
    if current.rate != 0 && current.name !in newOpened && KeyOf(openChild) in states {
      KeyOfInjective(valves, states[KeyOf(openChild)], openChild);
    }
  }

  /** Exploring a child of `me` keeps the growth below `me` and does not
      store `me` itself. */
  lemma BelowStaysUnstored(valves: seq<Valve>, cache: map<string, (int, string)>, states: map<string, State>,
                           newCache: map<string, (int, string)>, newStates: map<string, State>,
                           child: State, me: State)
    requires CacheHolds(valves, cache, states) && CacheHolds(valves, newCache, newStates)
    requires Grows(states, newStates, child.minutes, child) && child.minutes < me.minutes
    requires ValidState(valves, me) && KeyOf(me) !in cache
    ensures Grows(states, newStates, me.minutes, me) && KeyOf(me) !in newCache
  {
    GrowsBelow(states, newStates, child.minutes, child, me.minutes, me);
    if KeyOf(me) in newStates {
      KeyOfInjective(valves, newStates[KeyOf(me)], me);
    }
  }

  /** The lookup made before opening the current valve never hits: stored
      keys of `Open` calls list the opened valve itself, and the lookup key
      does not. */
  lemma OpenLookupMisses(valves: seq<Valve>, cache: map<string, (int, string)>, states: map<string, State>,
                         name: string, minutesLeft: int, openedValves: seq<string>)
    requires CacheHolds(valves, cache, states)
    requires ValidName(name) && ValidOpened(openedValves) && name !in openedValves
    ensures CacheKey(Open(name), minutesLeft, openedValves) !in cache
  {
    var k := CacheKey(Open(name), minutesLeft, openedValves);
    if k in cache {
      OpenKeyListsValve(states[k], name, minutesLeft, openedValves);
    }
  }

  /** A cache hit for a call returns that call's result. */
  lemma HitIsBest(valves: seq<Valve>, cache: map<string, (int, string)>, states: map<string, State>, s: State)
    requires CacheHolds(valves, cache, states) && ValidState(valves, s) && KeyOf(s) in cache
    ensures Some(cache[KeyOf(s)]) == BestOf(valves, s)
  {
    var other := states[KeyOf(s)];
    KeyOfInjective(valves, other, s);
    assert BestOf(valves, other) == Best(valves, s.action, s.minutes, SetOf(s.openedValves));
  }

  /** Before a `GoTo` call explores its tunnels, the entry for opening its
      valve is not stored: such an entry is stored only while this call
      runs, and this call has no entry yet. */
  lemma OpenChildNotStored(valves: seq<Valve>, cache: map<string, (int, string)>, states: map<string, State>,
                           me: State, active: map<string, State>)
    requires CacheHolds(valves, cache, states) && ParentsKnown(cache, states, active.Keys)
    requires ValidState(valves, me) && me.action.GoTo? && me.minutes >= 1
    requires me.action.name !in me.openedValves
    requires KeyOf(me) !in cache
    requires Above(valves, active, me.minutes)
    ensures KeyOf(State(Open(me.action.name), me.minutes - 1, me.openedValves)) !in cache
  {
    var k := KeyOf(State(Open(me.action.name), me.minutes - 1, me.openedValves));
    if k in cache {
      var other := states[k];
      OpenEntryParent(valves, other, me);
      if KeyOf(me) in active {
        KeyOfInjective(valves, active[KeyOf(me)], me);
      }
    }
  }

  /** The invariant of the loop over the tunnels of the valve reached by
      `me`: the cache is correct, the entries stored before the loop
      (`before`) are kept and new ones are tunnel moves or below, and the
      keys of `me` and of opening its valve are not stored. */
  ghost predicate TunnelFrame(valves: seq<Valve>, me: State, current: Valve, newOpened: seq<string>,
                              running: map<string, State>, before: map<string, State>,
                              cache: map<string, (int, string)>, states: map<string, State>)
    requires me.minutes >= 1
  {
    && CacheHolds(valves, cache, states) && ParentsKnown(cache, states, running.Keys)
    && GrowsByTunnels(before, states, me.minutes - 1)
    && KeyOf(me) !in cache
    && (current.rate != 0 && current.name !in newOpened ==>
          KeyOf(State(Open(current.name), me.minutes - 1, newOpened)) !in cache)
  }

  /** Exploring one tunnel move keeps the frame of the loop over the tunnels. */
  lemma TunnelFrameStep(valves: seq<Valve>, me: State, current: Valve, newOpened: seq<string>,
                        running: map<string, State>, before: map<string, State>,
                        cache: map<string, (int, string)>, states: map<string, State>,
                        newCache: map<string, (int, string)>, newStates: map<string, State>, child: State)
    requires me.minutes >= 1 && ValidState(valves, me) && current == FindValve(valves, me.action.name).value
    requires ValidOpened(newOpened) && child.minutes == me.minutes - 1 && child.action.GoTo?
    requires TunnelFrame(valves, me, current, newOpened, running, before, cache, states)
    requires CacheHolds(valves, newCache, newStates) && ParentsKnown(newCache, newStates, running.Keys)
    requires Grows(states, newStates, child.minutes, child)
    ensures TunnelFrame(valves, me, current, newOpened, running, before, newCache, newStates)
  {
    TunnelStep(before, states, newStates, child);
    TunnelStaysUnstored(valves, newCache, newStates, states, me, current, newOpened, child);
  }

  // ---------------------------------------------------------------------------
  // `get_best_total_for_action` and its parts. The `Context` it receives by
  // mutable reference is passed as its two fields: the valve table, which is
  // only read, and the cache, which goes in and comes back updated. The ghost
  // map `states` records the call that stored each entry; `active` holds the
  // calls still running above the current one.

  /** One child of a call: look its key up in the cache and search only on
      a miss. For opening a valve the lookup key lists the opened valves
      before the opening, which no stored key does, so the search always
      runs; the caller guarantees that the call's own key is not yet
      stored. */
  method Explore(valves: seq<Valve>, cache: map<string, (int, string)>, child: State,
                 ghost states: map<string, State>, ghost running: map<string, State>)
    returns (sub: Option<(int, string)>, newCache: map<string, (int, string)>, ghost newStates: map<string, State>)
    requires CacheHolds(valves, cache, states) && ParentsKnown(cache, states, running.Keys)
    requires ValidState(valves, child)
    requires Above(valves, running, child.minutes)
    requires child.action.Open? ==> ParentKey(child) in running && KeyOf(child) !in cache
    ensures CacheHolds(valves, newCache, newStates) && ParentsKnown(newCache, newStates, running.Keys)
    ensures Grows(states, newStates, child.minutes, child)
    ensures sub == BestOf(valves, child)
    decreases child.minutes + 1, 0
  {
    var key := CacheKey(child.action, child.minutes, child.openedValves);
    if key in cache {
      if child.action.Open? {
        OpenLookupMisses(valves, cache, states, child.action.name, child.minutes, child.openedValves);
        assert false;
      }
      HitIsBest(valves, cache, states, child);
      sub, newCache, newStates := Some(cache[key]), cache, states;
    } else {
      sub, newCache, newStates :=
        GetBestTotalForAction(valves, cache, child.action, child.minutes, child.openedValves, states, running);
    }
  }

  /** Explores the tunnel move to `name`, found in the table as `valve`. */
  method VisitFound(valves: seq<Valve>, cache: map<string, (int, string)>, me: State, current: Valve,
                    newOpened: seq<string>, name: string, valve: Valve, ghost states: map<string, State>,
                    ghost running: map<string, State>, ghost before: map<string, State>)
    returns (sub: Option<(int, string)>, newCache: map<string, (int, string)>, ghost newStates: map<string, State>)
    requires me.minutes >= 1 && ValidState(valves, me) && current == FindValve(valves, me.action.name).value
    requires ValidOpened(newOpened) && FindValve(valves, name) == Some(valve)
    requires KeyOf(me) in running && running[KeyOf(me)] == me
    requires Above(valves, running, me.minutes - 1)
    requires TunnelFrame(valves, me, current, newOpened, running, before, cache, states)
    ensures TunnelFrame(valves, me, current, newOpened, running, before, newCache, newStates)
    ensures sub == Best(valves, GoTo(name), me.minutes - 1, SetOf(newOpened))
    decreases me.minutes, 1
  {
    var child := State(GoTo(valve.name), me.minutes - 1, newOpened);
    assert child == State(GoTo(name), me.minutes - 1, newOpened);
    ghost var target := Best(valves, GoTo(name), me.minutes - 1, SetOf(newOpened));
    assert BestOf(valves, child) == target;
    sub, newCache, newStates := Explore(valves, cache, child, states, running);
    assert sub == target;
    TunnelFrameStep(valves, me, current, newOpened, running, before, cache, states, newCache, newStates, child);
  }

  /** One pass of the loop over the tunnels: finds the `i`-th neighbour in
      the table, which panics when it is missing, and explores it. */
  method VisitTunnel(valves: seq<Valve>, cache: map<string, (int, string)>, me: State, current: Valve,
                     newOpened: seq<string>, i: nat, ghost states: map<string, State>,
                     ghost running: map<string, State>, ghost before: map<string, State>, ghost acc: (int, string))
    returns (sub: Option<(int, string)>, newCache: map<string, (int, string)>, ghost newStates: map<string, State>)
    requires me.minutes >= 1 && ValidState(valves, me) && current == FindValve(valves, me.action.name).value
    requires ValidOpened(newOpened) && i < |current.connections|
    requires KeyOf(me) in running && running[KeyOf(me)] == me
    requires Above(valves, running, me.minutes - 1)
    requires TunnelFrame(valves, me, current, newOpened, running, before, cache, states)
    ensures TunnelFrame(valves, me, current, newOpened, running, before, newCache, newStates)
    ensures sub == Best(valves, GoTo(current.connections[i]), me.minutes - 1, SetOf(newOpened))
    ensures FoldGoTo(valves, current.connections[i..], me.minutes, SetOf(newOpened), acc)
            == if sub.None? then None
               else FoldGoTo(valves, current.connections[i + 1..], me.minutes, SetOf(newOpened),
                             if sub.value.0 > acc.0 then sub.value else acc)
    decreases me.minutes, 2
  {
    FoldGoToStep(valves, current.connections, i, me.minutes, SetOf(newOpened), acc);
    var name := current.connections[i];
    var found := FindValve(valves, name);
    if found.None? {
      assert Best(valves, GoTo(name), me.minutes - 1, SetOf(newOpened)) == None;
      return None, cache, states;
    }
    sub, newCache, newStates := VisitFound(valves, cache, me, current, newOpened, name, found.value, states, running, before);
  }

  /** The loop over the tunnels of the valve reached by `me`: explores each
      neighbour with `newOpened` as the opened valves and keeps the first
      strictly best child; a child that panics ends the search. */
  method ExploreTunnels(valves: seq<Valve>, cache: map<string, (int, string)>, me: State, current: Valve,
                        newOpened: seq<string>, ghost states: map<string, State>, ghost active: map<string, State>)
    returns (tunnels: Option<(int, string)>,
             newCache: map<string, (int, string)>, ghost newStates: map<string, State>)
    requires CacheHolds(valves, cache, states) && me.minutes >= 1
    requires ValidState(valves, me) && current == FindValve(valves, me.action.name).value
    requires newOpened == NewOpened(me.action, me.openedValves) && ValidOpened(newOpened)
    requires ParentsKnown(cache, states, active.Keys + {KeyOf(me)})
    requires KeyOf(me) !in cache && KeyOf(me) !in active
    requires Above(valves, active, me.minutes)
    requires current.rate != 0 && current.name !in newOpened ==>
               KeyOf(State(Open(current.name), me.minutes - 1, newOpened)) !in cache
    ensures TunnelFrame(valves, me, current, newOpened, active[KeyOf(me) := me], states, newCache, newStates)
    ensures tunnels == FoldGoTo(valves, current.connections, me.minutes, SetOf(newOpened), (-1, ""))
    decreases me.minutes, 3
  {
    ghost var running := active[KeyOf(me) := me];
    assert running.Keys == active.Keys + {KeyOf(me)};
    AboveAdd(valves, active, me);
    var names := current.connections;
    ghost var openNow := SetOf(newOpened);
    var bestSubTotal: int := -1;
    var bestPath: string := "";
    newCache, newStates := cache, states;
    var i := 0;
    while i < |names|
      invariant i <= |names|
      invariant TunnelFrame(valves, me, current, newOpened, running, states, newCache, newStates)
      invariant FoldGoTo(valves, names, me.minutes, openNow, (-1, ""))
                == FoldGoTo(valves, names[i..], me.minutes, openNow, (bestSubTotal, bestPath))
    {
      var sub;
      sub, newCache, newStates := VisitTunnel(valves, newCache, me, current, newOpened, i, newStates, running, states,
                                              (bestSubTotal, bestPath));
      if sub.None? {
        return None, newCache, newStates;
      }
      if sub.value.0 > bestSubTotal {
        bestSubTotal := sub.value.0;
        bestPath := sub.value.1;
      }
      i := i + 1;
    }
    assert names[i..] == [];
    tunnels := Some((bestSubTotal, bestPath));
  }

  /** Opening the valve reached by `me`, after its tunnels: the child
      replaces the best tunnel only with a strictly greater total. */
  method ExploreOpen(valves: seq<Valve>, cache: map<string, (int, string)>, me: State, current: Valve,
                     newOpened: seq<string>, tunnels: (int, string),
                     ghost states: map<string, State>, ghost running: map<string, State>)
    returns (best: Option<(int, string)>, newCache: map<string, (int, string)>, ghost newStates: map<string, State>)
    requires CacheHolds(valves, cache, states) && me.minutes >= 1
    requires ValidState(valves, me) && current == FindValve(valves, me.action.name).value
    requires newOpened == NewOpened(me.action, me.openedValves) && ValidOpened(newOpened)
    requires current.rate != 0 && current.name !in newOpened
    requires ParentsKnown(cache, states, running.Keys)
    requires KeyOf(me) in running && running[KeyOf(me)] == me
    requires Above(valves, running, me.minutes - 1)
    requires KeyOf(me) !in cache
    requires KeyOf(State(Open(current.name), me.minutes - 1, newOpened)) !in cache
    ensures CacheHolds(valves, newCache, newStates) && ParentsKnown(newCache, newStates, running.Keys)
    ensures Grows(states, newStates, me.minutes, me)
    ensures KeyOf(me) !in newCache
    ensures var sub := BestOf(valves, State(Open(current.name), me.minutes - 1, newOpened));
            best == if sub.None? then None else if sub.value.0 > tunnels.0 then sub else Some(tunnels)
    decreases me.minutes, 3
  {
    var child := State(Open(current.name), me.minutes - 1, newOpened);
    var sub;
    sub, newCache, newStates := Explore(valves, cache, child, states, running);
    BelowStaysUnstored(valves, cache, states, newCache, newStates, child, me);
    if sub.None? {
      best := None;
    } else {
      best := if sub.value.0 > tunnels.0 then sub else Some(tunnels);
    }
  }

  /** The children of the call `me` after its tunnels: opening its valve
      when that is allowed, which replaces the best tunnel only with a
      strictly greater total. */
  method ChooseChild(valves: seq<Valve>, cache: map<string, (int, string)>, me: State, current: Valve,
                     newOpened: seq<string>, tunnels: (int, string), ghost states: map<string, State>,
                     ghost tunnelStates: map<string, State>, ghost running: map<string, State>)
    returns (best: Option<(int, string)>, newCache: map<string, (int, string)>, ghost newStates: map<string, State>)
    requires me.minutes >= 1 && ValidState(valves, me) && current == FindValve(valves, me.action.name).value
    requires newOpened == NewOpened(me.action, me.openedValves) && ValidOpened(newOpened)
    requires KeyOf(me) in running && running[KeyOf(me)] == me
    requires Above(valves, running, me.minutes - 1)
    requires TunnelFrame(valves, me, current, newOpened, running, states, cache, tunnelStates)
    requires Some(tunnels) == FoldGoTo(valves, current.connections, me.minutes, SetOf(newOpened), (-1, ""))
    ensures CacheHolds(valves, newCache, newStates) && ParentsKnown(newCache, newStates, running.Keys)
    ensures Grows(states, newStates, me.minutes, me)
    ensures KeyOf(me) !in newCache
    ensures best == BestChild(valves, me.action.name, me.minutes, SetOf(newOpened))
    decreases me.minutes, 4
  {
    TunnelGrowth(states, tunnelStates, me.minutes - 1, me);
    best, newCache, newStates := Some(tunnels), cache, tunnelStates;
    if current.rate != 0 && current.name !in newOpened {
      best, newCache, newStates := ExploreOpen(valves, cache, me, current, newOpened, tunnels, tunnelStates, running);
      GrowsTrans(states, tunnelStates, newStates, me.minutes, me);
    }
    BestChildOf(valves, me.action.name, me.minutes, SetOf(newOpened), current, tunnels, best);
  }

  /** The children of the call `me`: its tunnels, then opening its valve
      when that is allowed; the result is the first strictly best child, or
      none when a child panics. */
  method ExploreChildren(valves: seq<Valve>, cache: map<string, (int, string)>, me: State, current: Valve,
                         newOpened: seq<string>, ghost states: map<string, State>, ghost active: map<string, State>)
    returns (best: Option<(int, string)>,
             newCache: map<string, (int, string)>, ghost newStates: map<string, State>)
    requires CacheHolds(valves, cache, states) && me.minutes >= 1
    requires ValidState(valves, me) && current == FindValve(valves, me.action.name).value
    requires newOpened == NewOpened(me.action, me.openedValves) && ValidOpened(newOpened)
    requires ParentsKnown(cache, states, active.Keys)
    requires KeyOf(me) !in cache && KeyOf(me) !in active
    requires Above(valves, active, me.minutes)
    ensures CacheHolds(valves, newCache, newStates)
    ensures ParentsKnown(newCache, newStates, active.Keys + {KeyOf(me)})
    ensures Grows(states, newStates, me.minutes, me)
    ensures KeyOf(me) !in newCache
    ensures best == BestChild(valves, me.action.name, me.minutes, SetOf(newOpened))
    decreases me.minutes, 5
  {
    ghost var running := active[KeyOf(me) := me];
    assert running.Keys == active.Keys + {KeyOf(me)};
    AboveAdd(valves, active, me);
    if current.rate != 0 && current.name !in newOpened {
      OpenChildNotStored(valves, cache, states, me, active);
    }
    var tunnels, tunnelCache;
    ghost var tunnelStates;
    tunnels, tunnelCache, tunnelStates := ExploreTunnels(valves, cache, me, current, newOpened, states, active);
    if tunnels.None? {
      TunnelGrowth(states, tunnelStates, me.minutes - 1, me);
      return None, tunnelCache, tunnelStates;
    }
    best, newCache, newStates :=
      ChooseChild(valves, tunnelCache, me, current, newOpened, tunnels.value, states, tunnelStates, running);
  }

  /** The end of a call: adds the call's own pressure to the best child's
      total, prefixes its tag to the path and stores the result under the
      call's key, which the source asserts is not yet stored. */
  method Finish(valves: seq<Valve>, cache: map<string, (int, string)>, me: State, current: Valve,
                total: int, newOpened: seq<string>, bestSubTotal: int, bestPath: string,
                ghost states: map<string, State>, ghost active: map<string, State>)
    returns (r: (int, string), newCache: map<string, (int, string)>, ghost newStates: map<string, State>)
    requires CacheHolds(valves, cache, states) && ValidState(valves, me) && me.minutes >= 1
    requires current == FindValve(valves, me.action.name).value
    requires total == if me.action.Open? then (me.minutes - 1) * current.rate else 0
    requires newOpened == NewOpened(me.action, me.openedValves)
    requires Some((bestSubTotal, bestPath)) == BestChild(valves, me.action.name, me.minutes, SetOf(newOpened))
    requires KeyOf(me) !in cache
    requires ParentsKnown(cache, states, active.Keys + {KeyOf(me)})
    requires me.action.Open? ==> ParentKey(me) in active
    ensures CacheHolds(valves, newCache, newStates) && ParentsKnown(newCache, newStates, active.Keys)
    ensures Grows(states, newStates, me.minutes, me)
    ensures newCache == cache[KeyOf(me) := r]
    ensures Some(r) == BestOf(valves, me)
  {
    var result := total + bestSubTotal;
    var path := PathTag(me.action) + bestPath;
    BestUnfold(valves, me, current, total, newOpened, bestSubTotal, bestPath, result, path);
    StoreKeepsCache(valves, cache, states, me, (result, path));
    StoreKeepsParents(cache, states, active.Keys, me, (result, path));
    StoreGrows(states, me);
    var key := CacheKey(me.action, me.minutes, newOpened);
    newCache := cache[key := (result, path)];
    newStates := states[key := me];
    r := (result, path);
  }

  /** `get_best_total_for_action`: with no time left nothing more is
      released; otherwise the search below runs. */
  method GetBestTotalForAction(valves: seq<Valve>, cache: map<string, (int, string)>, action: Action,
                               minutesLeft: nat, openedValves: seq<string>,
                               ghost states: map<string, State>, ghost active: map<string, State>)
    returns (r: Option<(int, string)>, newCache: map<string, (int, string)>, ghost newStates: map<string, State>)
    requires CacheHolds(valves, cache, states) && ParentsKnown(cache, states, active.Keys)
    requires ValidState(valves, State(action, minutesLeft, openedValves))
    requires KeyOf(State(action, minutesLeft, openedValves)) !in cache
    requires Above(valves, active, minutesLeft)
    requires action.Open? ==> ParentKey(State(action, minutesLeft, openedValves)) in active
    ensures CacheHolds(valves, newCache, newStates) && ParentsKnown(newCache, newStates, active.Keys)
    ensures Grows(states, newStates, minutesLeft, State(action, minutesLeft, openedValves))
    ensures r == BestOf(valves, State(action, minutesLeft, openedValves))
    decreases minutesLeft, 7
  {
    if minutesLeft == 0 {
      return Some((0, "-")), cache, states;
    }
    r, newCache, newStates := Search(valves, cache, State(action, minutesLeft, openedValves), states, active);
  }

  /** The body of `get_best_total_for_action` once time is left: opening a
      valve releases its rate over the remaining minutes and adds it to the
      opened valves handed to the children; then the children are explored
      and the result is stored under the call's key. */
  method Search(valves: seq<Valve>, cache: map<string, (int, string)>, me: State,
                ghost states: map<string, State>, ghost active: map<string, State>)
    returns (r: Option<(int, string)>, newCache: map<string, (int, string)>, ghost newStates: map<string, State>)
    requires CacheHolds(valves, cache, states) && ParentsKnown(cache, states, active.Keys)
    requires ValidState(valves, me) && me.minutes >= 1
    requires KeyOf(me) !in cache
    requires Above(valves, active, me.minutes)
    requires me.action.Open? ==> ParentKey(me) in active
    ensures CacheHolds(valves, newCache, newStates) && ParentsKnown(newCache, newStates, active.Keys)
    ensures Grows(states, newStates, me.minutes, me)
    ensures r == BestOf(valves, me)
    decreases me.minutes, 6
  {
    NewOpenedValid(me);
    var current := FindValve(valves, me.action.name).value;
    var total := if me.action.Open? then (me.minutes - 1) * current.rate else 0;
    var newOpened := NewOpened(me.action, me.openedValves);
    KeyNotAmongLonger(valves, me, active);
    var best, childCache;
    ghost var childStates;
    best, childCache, childStates := ExploreChildren(valves, cache, me, current, newOpened, states, active);
    if best.None? {
      // The program has stopped: the cache it was given stands in for the
      // one it would have left.
      BestUnfoldNone(valves, me, newOpened);
      return None, cache, states;
    }
    var result;
    result, newCache, newStates := Finish(valves, childCache, me, current, total, newOpened, best.value.0, best.value.1, childStates, active);
    GrowsTrans(states, childStates, newStates, me.minutes, me);
    r := Some(result);
  }

  /** `main`: the search starts by walking to `AA` with 31 minutes on the
      clock (the first minute is spent arriving), nothing open and an empty
      cache; a missing `AA` is an error, and so is a search that panics. */
  method Solve(valves: seq<Valve>) returns (r: Option<(int, string)>)
    requires Named(valves)
    ensures FindValve(valves, "AA").None? ==> r.None?
    ensures r == Best(valves, GoTo("AA"), 31, {})
  {
    var start := FindValve(valves, "AA");
    if start.None? {
      return None;
    }
    var res, _, _ := GetBestTotalForAction(valves, map[], GoTo(start.value.name), 31, [], map[], map[]);
    r := res;
    assert SetOf([]) == {};
  }
}
