/** Day 13: packets are nested lists of integers. Pairs of packets are
    compared; then all packets, with two divider packets added, are sorted
    with the same comparison. */
module Day13 {
  import opened Common

  /** A packet or one of its elements. */
  datatype Value = Number(n: int) | List(items: seq<Value>)

  // ---------------------------------------------------------------------------
  // Sizes, for termination of the comparison and of proofs.

  function Size(v: Value): (r: nat)
    ensures r >= 1
    decreases v
  {
    match v
    case Number(_) => 1
    case List(xs) => 1 + SizeOf(xs)
  }

  function SizeOf(xs: seq<Value>): nat
    decreases xs
  {
    if xs == [] then 0 else Size(xs[0]) + SizeOf(xs[1..])
  }

  lemma {:induction false} ElementSize(xs: seq<Value>, k: nat)
    requires k < |xs|
    ensures Size(xs[k]) <= SizeOf(xs)
  {
    if k > 0 {
      ElementSize(xs[1..], k - 1);
    }
  }

  // ---------------------------------------------------------------------------
  // Signed 64-bit integers as `str::parse::<i64>` reads them.

  const I64Min: int := -0x8000_0000_0000_0000
  const I64Max: int := 0x7fff_ffff_ffff_ffff

  predicate AllDigits(s: string)
  {
    forall k | 0 <= k < |s| :: IsDigit(s[k])
  }

  /** An optional `+` or `-`, then one or more decimal digits, and a value
      that fits in 64 bits; anything else is an error. */
  function ParseI64(s: string): (r: Option<int>)
    ensures r.Some? ==> I64Min <= r.value <= I64Max
    ensures r.Some? ==> s != [] && (IsDigit(s[0]) || s[0] == '+' || s[0] == '-')
    ensures r.Some? ==> AllDigits(s[1..])
  {
    var negative := |s| > 0 && s[0] == '-';
    var digits := if |s| > 0 && (s[0] == '-' || s[0] == '+') then s[1..] else s;
    if digits == [] || !AllDigits(digits) then None
    else
      var value: int := DecimalValue(digits);
      var n := if negative then -value else value;
      if I64Min <= n <= I64Max then Some(n) else None
  }

  /** An integer written as `{}` formats it: a minus sign when negative, then
      the decimal digits. */
  function ShowInt(n: int): (r: string)
    ensures |r| > 0
  {
    if n < 0 then "-" + NatToString(-n) else NatToString(n)
  }

  /** Every integer of the 64-bit range reads back as itself. */
  lemma ParseShowInt(n: int)
    requires I64Min <= n <= I64Max
    ensures ParseI64(ShowInt(n)) == Some(n)
  {
    var s := ShowInt(n);
    if n < 0 {
      assert s[1..] == NatToString(-n);
      NatToStringAllDigits(-n);
      NatToStringValue(-n);
    } else {
      NatToStringAllDigits(n);
      NatToStringValue(n);
      NatToStringStartsWithDigit(n);
    }
  }

  /** A printed integer has no comma and no bracket in it. */
  lemma ShowIntPlain(n: int)
    ensures forall k | 0 <= k < |ShowInt(n)| :: ShowInt(n)[k] !in {',', '[', ']'}
  {
    var s := ShowInt(n);
    if n < 0 {
      NatToStringAllDigits(-n);
      forall k | 1 <= k < |s|
        ensures IsDigit(s[k])
      {
        assert s[k] == NatToString(-n)[k - 1];
      }
    } else {
      NatToStringAllDigits(n);
    }
  }

  // ---------------------------------------------------------------------------
  // Printing packets: the notation `parse_list` reads.

  /** A value in packet notation: a number in decimal, a list as its
      elements separated by commas between brackets. */
  function Show(v: Value): (r: string)
    ensures |r| > 0
    decreases v
  {
    match v
    case Number(n) => ShowInt(n)
    case List(xs) => "[" + ShowItems(xs) + "]"
  }

  function ShowItems(xs: seq<Value>): string
    decreases xs
  {
    if xs == [] then ""
    else if |xs| == 1 then Show(xs[0])
    else Show(xs[0]) + "," + ShowItems(xs[1..])
  }

  /** Every number in the value fits in 64 bits. */
  predicate InRange(v: Value)
  {
    match v
    case Number(n) => I64Min <= n <= I64Max
    case List(xs) => forall k | 0 <= k < |xs| :: InRange(xs[k])
  }

  // ---------------------------------------------------------------------------
  // `parse_list`. A failed `unwrap`, an index past the
  // end and removing from an empty vector are panics: they give `None`.

  /** `Some` of the list with `v` in front, when both are there. */
  function Cons(v: Option<Value>, rest: Option<seq<Value>>): (r: Option<seq<Value>>)
    ensures r.Some? <==> v.Some? && rest.Some?
    ensures r.Some? ==> r.value == [v.value] + rest.value
  {
    match (v, rest)
    case (Some(x), Some(xs)) => Some([x] + xs)
    case _ => None
  }

  /** The depth scan: from `j` with `depth` brackets open, the index just past
      the bracket that closes the first one; `None` if the characters run out
      first. */
  function Close(cs: string, j: nat, depth: nat): (r: Option<nat>)
    requires j <= |cs|
    ensures r.Some? ==> j <= r.value <= |cs|
    ensures r.Some? && depth > 0 ==> j < r.value && cs[r.value - 1] == ']'
    ensures depth == 0 <==> r == Some(j)
    decreases |cs| - j
  {
    if depth == 0 then Some(j)
    else if j == |cs| then None
    else
      var d := if cs[j] == '[' then depth + 1 else if cs[j] == ']' then depth - 1 else depth;
      Close(cs, j + 1, d)
  }

  /** The end of a number: the first comma at or after `j`, or the end. */
  function NumberEnd(cs: string, j: nat): (r: nat)
    requires j <= |cs|
    ensures j <= r <= |cs|
    ensures forall k | j <= k < r :: cs[k] != ','
    ensures r < |cs| ==> cs[r] == ','
    decreases |cs| - j
  {
    if j < |cs| && cs[j] != ',' then NumberEnd(cs, j + 1) else j
  }

  /** `parse_list`: drop the first and the last character, then read the
      elements in between. */
  function Parse(s: string): (r: Option<Value>)
    ensures r.Some? ==> r.value.List?
    decreases |s|, 0, 0
  {
    if |s| < 2 then None
    else
      match Items(s[1..|s| - 1], 0)
      case None => None
      case Some(xs) => Some(List(xs))
  }

  /** The elements from index `i` on: a bracket starts a nested list that
      runs to its matching bracket, a comma is skipped, anything else is a
      number that runs to the next comma. */
  function Items(cs: string, i: nat): (r: Option<seq<Value>>)
    requires i <= |cs|
    decreases |cs|, 1, |cs| - i
  {
    if i == |cs| then Some([])
    else if cs[i] == '[' then
      match Close(cs, i + 1, 1)
      case None => None
      case Some(j) => Cons(Parse(cs[i..j]), Items(cs, j))
    else if cs[i] == ',' then Items(cs, i + 1)
    else
      var j := NumberEnd(cs, i + 1);
      var n := ParseI64(cs[i..j]);
      Cons(if n.Some? then Some(Number(n.value)) else None, Items(cs, j))
  }

  /** The depth scan steps over a run of characters without brackets. */
  lemma {:induction false} ClosePlain(cs: string, j: nat, depth: nat, len: nat)
    requires depth > 0 && j + len <= |cs|
    requires forall k | j <= k < j + len :: cs[k] != '[' && cs[k] != ']'
    ensures Close(cs, j, depth) == Close(cs, j + len, depth)
    decreases len
  {
    if len > 0 {
      ClosePlain(cs, j + 1, depth, len - 1);
    }
  }

  /** `s` occurs in `cs` at index `j`. */
  predicate At(cs: string, j: nat, s: string)
  {
    j + |s| <= |cs| && forall k | 0 <= k < |s| :: cs[j + k] == s[k]
  }

  lemma AtConcat(cs: string, j: nat, a: string, b: string)
    requires At(cs, j, a + b)
    ensures At(cs, j, a) && At(cs, j + |a|, b)
  {
    forall k | 0 <= k < |a|
      ensures cs[j + k] == a[k]
    {
      assert (a + b)[k] == a[k];
    }
    forall k | 0 <= k < |b|
      ensures cs[j + |a| + k] == b[k]
    {
      assert cs[j + (|a| + k)] == (a + b)[|a| + k];
    }
  }

  lemma AtSlice(cs: string, j: nat, s: string)
    requires At(cs, j, s)
    ensures cs[j..j + |s|] == s
  {
    forall k | 0 <= k < |s|
      ensures cs[j..j + |s|][k] == s[k]
    {
      assert cs[j + k] == s[k];
    }
  }

  /** How a list of printed elements is laid out. */
  lemma ShowItemsLayout(xs: seq<Value>)
    requires xs != []
    ensures |xs| == 1 ==> ShowItems(xs) == Show(xs[0])
    ensures |xs| > 1 ==> ShowItems(xs) == Show(xs[0]) + ("," + ShowItems(xs[1..]))
  {
    if |xs| > 1 {
      assert Show(xs[0]) + "," + ShowItems(xs[1..]) == Show(xs[0]) + ("," + ShowItems(xs[1..]));
    }
  }

  /** The depth scan steps over a printed value: its brackets balance. */
  lemma {:induction false} CloseShow(cs: string, j: nat, depth: nat, v: Value)
    requires depth > 0 && At(cs, j, Show(v))
    ensures Close(cs, j, depth) == Close(cs, j + |Show(v)|, depth)
    decreases Size(v), 0
  {
    var s := Show(v);
    match v
    case Number(n) =>
      ShowIntPlain(n);
      forall k | j <= k < j + |s|
        ensures cs[k] != '[' && cs[k] != ']'
      {
        assert cs[j + (k - j)] == s[k - j];
      }
      ClosePlain(cs, j, depth, |s|);
    case List(xs) =>
      var body := ShowItems(xs);
      assert s == "[" + body + "]";
      AtConcat(cs, j, "[" + body, "]");
      AtConcat(cs, j, "[", body);
      assert cs[j + 0] == "["[0];
      assert cs[j + |"[" + body|  + 0] == "]"[0];
      CloseShowItems(cs, j + 1, depth + 1, xs);
  }

  /** The depth scan steps over printed elements and their commas. */
  lemma {:induction false} CloseShowItems(cs: string, j: nat, depth: nat, xs: seq<Value>)
    requires depth > 0 && At(cs, j, ShowItems(xs))
    ensures Close(cs, j, depth) == Close(cs, j + |ShowItems(xs)|, depth)
    decreases SizeOf(xs), 1
  {
    if xs != [] {
      var first := Show(xs[0]);
      ShowItemsLayout(xs);
      ElementSize(xs, 0);
      if |xs| == 1 {
        CloseShow(cs, j, depth, xs[0]);
      } else {
        var rest := ShowItems(xs[1..]);
        AtConcat(cs, j, first, "," + rest);
        AtConcat(cs, j + |first|, ",", rest);
        CloseShow(cs, j, depth, xs[0]);
        assert cs[j + |first| + 0] == ","[0];
        CloseShowItems(cs, j + |first| + 1, depth, xs[1..]);
      }
    }
  }

  /** Where the first printed element lies in `cs`, and what follows it: the
      end, or a comma and the other elements. */
  lemma FirstWindow(cs: string, i: nat, xs: seq<Value>)
    requires xs != [] && At(cs, i, ShowItems(xs)) && i + |ShowItems(xs)| == |cs|
    ensures var j := i + |Show(xs[0])|;
      At(cs, i, Show(xs[0])) && (j == |cs| <==> |xs| == 1) &&
      (|xs| > 1 ==> j < |cs| && cs[j] == ',' && At(cs, j + 1, ShowItems(xs[1..])) && j + 1 + |ShowItems(xs[1..])| == |cs|)
  {
    var first := Show(xs[0]);
    ShowItemsLayout(xs);
    if |xs| > 1 {
      var rest := ShowItems(xs[1..]);
      AtConcat(cs, i, first, "," + rest);
      AtConcat(cs, i + |first|, ",", rest);
      assert cs[i + |first| + 0] == ","[0];
    }
  }

  /** A printed list in `cs` starts with a bracket that the depth scan
      closes at its end. */
  lemma ListWindow(cs: string, i: nat, v: Value)
    requires v.List? && At(cs, i, Show(v))
    ensures cs[i] == '[' && Close(cs, i + 1, 1) == Some(i + |Show(v)|)
  {
    var body := ShowItems(v.items);
    assert Show(v) == "[" + body + "]";
    AtConcat(cs, i, "[" + body, "]");
    AtConcat(cs, i, "[", body);
    assert cs[i + 0] == "["[0];
    assert cs[i + |"[" + body| + 0] == "]"[0];
    CloseShowItems(cs, i + 1, 1, v.items);
  }

  /** A printed number in `cs`, followed by a comma or the end, is where the
      number scan stops. */
  lemma NumberWindow(cs: string, i: nat, n: int)
    requires At(cs, i, ShowInt(n))
    requires i + |ShowInt(n)| < |cs| ==> cs[i + |ShowInt(n)|] == ','
    ensures cs[i] != '[' && cs[i] != ','
    ensures NumberEnd(cs, i + 1) == i + |ShowInt(n)|
  {
    var first := ShowInt(n);
    var j := i + |first|;
    ShowIntPlain(n);
    assert cs[i + 0] == first[0];
    forall k | i + 1 <= k < j
      ensures cs[k] != ','
    {
      assert cs[i + (k - i)] == first[k - i];
    }
    NumberEndAt(cs, i + 1, j);
  }

  /** One step of `Items` over a nested list. */
  lemma ItemsListStep(cs: string, i: nat, j: nat, v: Value, rest: seq<Value>)
    requires i < |cs| && cs[i] == '[' && Close(cs, i + 1, 1) == Some(j)
    requires Parse(cs[i..j]) == Some(v) && Items(cs, j) == Some(rest)
    ensures Items(cs, i) == Some([v] + rest)
  {
  }

  /** One step of `Items` over a number. */
  lemma ItemsNumberStep(cs: string, i: nat, j: nat, n: int, rest: seq<Value>)
    requires i < |cs| && cs[i] != '[' && cs[i] != ',' && NumberEnd(cs, i + 1) == j
    requires ParseI64(cs[i..j]) == Some(n) && Items(cs, j) == Some(rest)
    ensures Items(cs, i) == Some([Number(n)] + rest)
  {
  }

  /** Reading printed elements from `i` to the end gives the elements back. */
  lemma {:induction false} ItemsShow(cs: string, i: nat, xs: seq<Value>)
    requires At(cs, i, ShowItems(xs)) && i + |ShowItems(xs)| == |cs|
    requires forall k | 0 <= k < |xs| :: InRange(xs[k])
    ensures Items(cs, i) == Some(xs)
    decreases SizeOf(xs), 2
  {
    if xs != [] {
      var x := xs[0];
      FirstWindow(cs, i, xs);
      ItemsAfter(cs, i, xs);
      ElementSize(xs, 0);
      assert InRange(x);
      assert xs == [x] + xs[1..];
      match x
      case List(_) =>
        ListElement(cs, i, x, xs[1..]);
      case Number(n) =>
        NumberElement(cs, i, n, xs[1..]);
    }
  }

  /** A printed list at `i`, followed by elements that read back. */
  lemma {:induction false} ListElement(cs: string, i: nat, v: Value, rest: seq<Value>)
    requires v.List? && InRange(v) && At(cs, i, Show(v))
    requires Items(cs, i + |Show(v)|) == Some(rest)
    ensures Items(cs, i) == Some([v] + rest)
    decreases Size(v), 1
  {
    var j: nat := i + |Show(v)|;
    ListWindow(cs, i, v);
    AtSlice(cs, i, Show(v));
    ParseShow(v);
    ItemsListStep(cs, i, j, v, rest);
  }

  /** A printed number at `i`, followed by the end or a comma and elements
      that read back. */
  lemma NumberElement(cs: string, i: nat, n: int, rest: seq<Value>)
    requires I64Min <= n <= I64Max && At(cs, i, ShowInt(n))
    requires i + |ShowInt(n)| < |cs| ==> cs[i + |ShowInt(n)|] == ','
    requires Items(cs, i + |ShowInt(n)|) == Some(rest)
    ensures Items(cs, i) == Some([Number(n)] + rest)
  {
    var j := i + |ShowInt(n)|;
    NumberWindow(cs, i, n);
    AtSlice(cs, i, ShowInt(n));
    ParseShowInt(n);
    ItemsNumberStep(cs, i, j, n, rest);
  }

  /** After the first printed element: the end, or a comma and the other
      printed elements. */
  lemma {:induction false} ItemsAfter(cs: string, i: nat, xs: seq<Value>)
    requires xs != [] && At(cs, i, ShowItems(xs)) && i + |ShowItems(xs)| == |cs|
    requires forall k | 0 <= k < |xs| :: InRange(xs[k])
    ensures Items(cs, i + |Show(xs[0])|) == Some(xs[1..])
    decreases SizeOf(xs), 0
  {
    var j := i + |Show(xs[0])|;
    FirstWindow(cs, i, xs);
    if |xs| > 1 {
      var rest := xs[1..];
      assert SizeOf(rest) < SizeOf(xs);
      forall k | 0 <= k < |rest|
        ensures InRange(rest[k])
      {
        assert rest[k] == xs[k + 1];
      }
      ItemsShow(cs, j + 1, rest);
      assert Items(cs, j) == Items(cs, j + 1);
    }
  }

  /** The number scan stops at the first comma, or at the end. */
  lemma {:induction false} NumberEndAt(cs: string, j: nat, e: nat)
    requires j <= e <= |cs|
    requires forall k | j <= k < e :: cs[k] != ','
    requires e < |cs| ==> cs[e] == ','
    ensures NumberEnd(cs, j) == e
    decreases e - j
  {
    if j < e {
      NumberEndAt(cs, j + 1, e);
    }
  }

  /** `parse_list` reads a printed list back: printing and parsing are
      inverse on lists of 64-bit numbers. */
  lemma {:induction false} ParseShow(v: Value)
    requires v.List? && InRange(v)
    ensures Parse(Show(v)) == Some(v)
    decreases Size(v), 0, 0
  {
    var s := Show(v);
    var body := ShowItems(v.items);
    assert s == "[" + body + "]";
    assert s[1..|s| - 1] == body;
    assert At(body, 0, body) by {
      forall k | 0 <= k < |body|
        ensures body[0 + k] == body[k]
      {
      }
    }
    ItemsShow(body, 0, v.items);
  }

  /** The empty brackets are the empty list. */
  lemma ParseEmpty()
    ensures Parse("[]") == Some(List([]))
  {
  }

  /** `parse_list` as written: a loop over the characters with a depth
      counter for nested lists, which it parses by a recursive call. */
  method ParseList(input: string) returns (v: Option<Value>)
    ensures v == Parse(input)
    decreases |input|
  {
    if |input| < 2 {
      return None;
    }
    var chars := input[1..|input| - 1];
    var values: seq<Value> := [];
    var i := 0;
    ghost var all := Items(chars, 0);
    if all.Some? {
      assert values + all.value == all.value;
    }
    while i < |chars|
      invariant i <= |chars|
      invariant Items(chars, 0) == Prepend(values, Items(chars, i))
      decreases |chars| - i
    {
      var c := chars[i];
      if c == '[' {
        var close := MatchBracket(chars, i);
        if close.None? {
          return None;
        }
        var j := close.value;
        var sublist := ParseList(chars[i..j]);
        assert Items(chars, i) == Cons(sublist, Items(chars, j));
        if sublist.None? {
          return None;
        }
        PrependCons(values, sublist.value, Items(chars, j));
        values := values + [sublist.value];
        i := j;
      } else if c == ',' {
        i := i + 1;
      } else {
        var j := ScanNumber(chars, i);
        var number := ParseI64(chars[i..j]);
        assert Items(chars, i) == Cons(if number.Some? then Some(Number(number.value)) else None, Items(chars, j));
        if number.None? {
          return None;
        }
        PrependCons(values, Number(number.value), Items(chars, j));
        values := values + [Number(number.value)];
        i := j;
      }
    }
    assert values + [] == values;
    return Some(List(values));
  }

  /** The inner loop over a nested list: count the depth until the bracket
      at `i` is closed; running off the end is a panic. */
  method MatchBracket(chars: string, i: nat) returns (close: Option<nat>)
    requires i < |chars|
    ensures close == Close(chars, i + 1, 1)
  {
    var depth: nat := 1;
    var j := i + 1;
    while depth > 0
      invariant i < j <= |chars|
      invariant Close(chars, i + 1, 1) == Close(chars, j, depth)
      decreases |chars| - j
    {
      if j == |chars| {
        return None;
      }
      if chars[j] == '[' {
        depth := depth + 1;
      } else if chars[j] == ']' {
        depth := depth - 1;
      }
      j := j + 1;
    }
    return Some(j);
  }

  /** The inner loop over a number: run to the next comma or the end. */
  method ScanNumber(chars: string, i: nat) returns (j: nat)
    requires i < |chars|
    ensures j == NumberEnd(chars, i + 1)
  {
    j := i + 1;
    while j < |chars| && chars[j] != ','
      invariant i < j <= |chars|
      invariant NumberEnd(chars, i + 1) == NumberEnd(chars, j)
    {
      j := j + 1;
    }
  }

  lemma PrependCons(values: seq<Value>, v: Value, rest: Option<seq<Value>>)
    ensures Prepend(values, Cons(Some(v), rest)) == Prepend(values + [v], rest)
  {
    if rest.Some? {
      assert values + ([v] + rest.value) == values + [v] + rest.value;
    }
  }

  /** `Some(values + rest)`, when the rest is there. */
  function Prepend(values: seq<Value>, rest: Option<seq<Value>>): (r: Option<seq<Value>>)
    ensures r.Some? <==> rest.Some?
    ensures r.Some? ==> r.value == values + rest.value
  {
    if rest.Some? then Some(values + rest.value) else None
  }

  // ---------------------------------------------------------------------------
  // `compare_lists`.

  /** A number meeting a list is turned into a one-element list. */
  function Promote(left: Value, right: Value): (r: (Value, Value))
    ensures r.0.List? == (left.List? || right.List?) && r.1.List? == (left.List? || right.List?)
    ensures Size(r.0) + Size(r.1) <= Size(left) + Size(right) + 1
  {
    match (left, right)
    case (Number(x), List(_)) => SingletonSize(x); (List([Number(x)]), right)
    case (List(_), Number(y)) => SingletonSize(y); (left, List([Number(y)]))
    case _ => (left, right)
  }

  lemma SingletonSize(x: int)
    ensures Size(List([Number(x)])) == 2
  {
    assert [Number(x)][1..] == [];
    assert SizeOf([Number(x)]) == Size(Number(x)) + SizeOf([]);
  }

  lemma PromoteSwap(left: Value, right: Value)
    ensures Promote(right, left) == (Promote(left, right).1, Promote(left, right).0)
  {
  }

  /** `compare_lists(left, right)`: whether `left` comes strictly before
      `right`. */
  function Compare(left: Value, right: Value): bool
    decreases Size(left) + Size(right), 1, 0
  {
    match (left, right)
    case (Number(a), Number(b)) => a < b
    case (List(l), List(r)) => CompareFrom(l, r, 0)
    case _ => false
  }

  /** The zipped loop from position `k`: the first pair ordered either way
      decides; when one list runs out, the shorter one comes first. */
  function CompareFrom(l: seq<Value>, r: seq<Value>, k: nat): bool
    decreases SizeOf(l) + SizeOf(r) + 2, 0, |l| - k
  {
    if k >= |l| || k >= |r| then |l| < |r|
    else
      ElementSize(l, k);
      ElementSize(r, k);
      var p := Promote(l[k], r[k]);
      if Compare(p.0, p.1) then true
      else if Compare(p.1, p.0) then false
      else CompareFrom(l, r, k + 1)
  }

  /** No packet comes before itself. */
  lemma {:induction false} Irreflexive(v: Value)
    ensures !Compare(v, v)
    decreases Size(v) + Size(v), 1
  {
    if v.List? {
      IrreflexiveFrom(v.items, 0);
    }
  }

  lemma {:induction false} IrreflexiveFrom(l: seq<Value>, k: nat)
    ensures !CompareFrom(l, l, k)
    decreases SizeOf(l) + SizeOf(l) + 2, 0, |l| - k
  {
    if k < |l| {
      ElementSize(l, k);
      assert Promote(l[k], l[k]) == (l[k], l[k]);
      Irreflexive(l[k]);
      IrreflexiveFrom(l, k + 1);
    }
  }

  /** Two packets never come before each other. */
  lemma {:induction false} Asymmetric(a: Value, b: Value)
    ensures !(Compare(a, b) && Compare(b, a))
    decreases Size(a) + Size(b), 1
  {
    if a.List? && b.List? {
      AsymmetricFrom(a.items, b.items, 0);
    }
  }

  lemma {:induction false} AsymmetricFrom(l: seq<Value>, r: seq<Value>, k: nat)
    ensures !(CompareFrom(l, r, k) && CompareFrom(r, l, k))
    decreases SizeOf(l) + SizeOf(r) + 2, 0, |l| - k
  {
    if k < |l| && k < |r| {
      ElementSize(l, k);
      ElementSize(r, k);
      var p := Promote(l[k], r[k]);
      PromoteSwap(l[k], r[k]);
      Asymmetric(p.0, p.1);
      if !Compare(p.0, p.1) && !Compare(p.1, p.0) {
        AsymmetricFrom(l, r, k + 1);
      }
    }
  }

  /** A list comes before every longer list that starts with it. */
  lemma {:induction false} PrefixFirst(xs: seq<Value>, ys: seq<Value>)
    ensures Compare(List(xs), List(xs + ys)) <==> ys != []
  {
    PrefixFrom(xs, ys, 0);
  }

  lemma {:induction false} PrefixFrom(xs: seq<Value>, ys: seq<Value>, k: nat)
    ensures CompareFrom(xs, xs + ys, k) <==> ys != []
    decreases |xs| - k
  {
    var r := xs + ys;
    if k < |xs| {
      assert r[k] == xs[k];
      assert Promote(xs[k], r[k]) == (xs[k], xs[k]);
      Irreflexive(xs[k]);
      PrefixFrom(xs, ys, k + 1);
    }
  }

  // ---------------------------------------------------------------------------
  // Part 1: lines come in threes, two packets and a
  // separator that is never looked at; the input must end after the second
  // packet of the last pair.

  /** The score of pair `k` (from 0): its 1-based number when its packets are
      in the right order, else 0. */
  function PairScore(lines: seq<string>, k: nat): (r: Option<int>)
    requires 3 * k + 1 < |lines|
    ensures r.Some? ==> r.value == 0 || r.value == k + 1
    ensures r.Some? <==> Parse(lines[3 * k]).Some? && Parse(lines[3 * k + 1]).Some?
  {
    var left, right := Parse(lines[3 * k]), Parse(lines[3 * k + 1]);
    if left.None? || right.None? then None
    else Some(if Compare(left.value, right.value) then k + 1 else 0)
  }

  /** The sum of the scores of the first `n` pairs. */
  function ScoreUpTo(lines: seq<string>, n: nat): (r: Option<int>)
    requires 3 * n <= |lines| + 1
  {
    if n == 0 then Some(0)
    else
      var before, last := ScoreUpTo(lines, n - 1), PairScore(lines, n - 1);
      if before.Some? && last.Some? then Some(before.value + last.value) else None
  }

  /** Part 1: the sum over all pairs; `None` when a line is missing or a
      packet does not parse. */
  function Part1(lines: seq<string>): (r: Option<int>)
  {
    if |lines| % 3 != 2 then None else ScoreUpTo(lines, |lines| / 3 + 1)
  }

  /** One pair that fails to parse makes every longer sum fail. */
  lemma {:induction false} ScoreFails(lines: seq<string>, n: nat, m: nat)
    requires n <= m && 3 * m <= |lines| + 1 && ScoreUpTo(lines, n) == None
    ensures ScoreUpTo(lines, m) == None
    decreases m - n
  {
    if n < m {
      ScoreFails(lines, n, m - 1);
    }
  }

  /** The sum of the first `n` pair numbers, `1 + 2 + ... + n`. */
  function Triangle(n: nat): (r: nat)
    ensures 2 * r == n * (n + 1)
  {
    if n == 0 then 0 else Triangle(n - 1) + n
  }

  /** Each packet of a pair swapped with its partner. */
  function SwapPairs(lines: seq<string>): (r: seq<string>)
    ensures |r| == |lines|
    ensures forall k | 0 <= k && 3 * k + 1 < |lines| :: r[3 * k] == lines[3 * k + 1] && r[3 * k + 1] == lines[3 * k]
  {
    seq(|lines|, i requires 0 <= i < |lines| =>
      if i % 3 == 0 && i + 1 < |lines| then lines[i + 1]
      else if i % 3 == 1 then lines[i - 1]
      else lines[i])
  }

  /** A pair counts for itself or for its swapped copy, never for both: the
      two sums together are at most `1 + 2 + ... + n`. */
  lemma {:induction false} SwappedScores(lines: seq<string>, n: nat)
    requires 3 * n <= |lines| + 1
    requires ScoreUpTo(lines, n).Some? && ScoreUpTo(SwapPairs(lines), n).Some?
    ensures ScoreUpTo(lines, n).value + ScoreUpTo(SwapPairs(lines), n).value <= Triangle(n)
    ensures ScoreUpTo(lines, n).value >= 0
  {
    if n > 0 {
      var swapped := SwapPairs(lines);
      var k := n - 1;
      assert ScoreUpTo(lines, k).Some? && ScoreUpTo(swapped, k).Some?;
      SwappedScores(lines, k);
      var a, b := Parse(lines[3 * k]), Parse(lines[3 * k + 1]);
      assert Parse(swapped[3 * k]) == b && Parse(swapped[3 * k + 1]) == a;
      Asymmetric(a.value, b.value);
    }
  }

  /** Part 1 as written: read two packets and a separator until the input
      ends. */
  method SolvePart1(lines: seq<string>) returns (result: Option<int>)
    ensures result == Part1(lines)
  {
    var pair := 0;
    var sum := 0;
    var pos := 0;
    while true
      invariant pos == 3 * pair && pos <= |lines|
      invariant ScoreUpTo(lines, pair) == Some(sum)
      decreases |lines| - pos
    {
      if pos + 1 >= |lines| {
        // One of the two `unwrap` calls finds no line.
        return None;
      }
      var list1 := ParseList(lines[pos]);
      var list2 := ParseList(lines[pos + 1]);
      if list1.None? || list2.None? {
        if |lines| % 3 == 2 {
          ScoreFails(lines, pair + 1, |lines| / 3 + 1);
        }
        return None;
      }
      pair := pair + 1;
      if Compare(list1.value, list2.value) {
        sum := sum + pair;
      }
      if pos + 2 >= |lines| {
        return Some(sum);
      }
      pos := pos + 3;
    }
  }

  // ---------------------------------------------------------------------------
  // Part 2.

  const Divider2: string := "[[2]]"
  const Divider6: string := "[[6]]"

  /** The packets to sort: the non-empty lines, then the two dividers. */
  function Packets(lines: seq<string>): (r: seq<string>)
    ensures |r| >= 2 && r[|r| - 2] == Divider2 && r[|r| - 1] == Divider6
    ensures forall k | 0 <= k < |r| - 2 :: r[k] != ""
    ensures forall x | x != "" :: multiset(r[..|r| - 2])[x] == multiset(lines)[x]
  {
    if lines == [] then [Divider2, Divider6]
    else
      var r := Packets(lines[..|lines| - 1]);
      var last := lines[|lines| - 1];
      assert lines == lines[..|lines| - 1] + [last];
      if last == "" then r
      else r[..|r| - 2] + [last] + r[|r| - 2..]
  }

  predicate AllParse(packets: seq<string>)
  {
    forall k | 0 <= k < |packets| :: Parse(packets[k]).Some?
  }

  /** What the sort leaves: the same packets, and no packet comes before one
      that precedes it. */
  predicate SortedPackets(sorted: seq<string>, packets: seq<string>)
  {
    multiset(sorted) == multiset(packets) && AllParse(sorted) &&
    forall i, j | 0 <= i < j < |sorted| :: !Compare(Parse(sorted[j]).value, Parse(sorted[i]).value)
  }

  /** The 1-based position of the last copy of `p` in `s`, 0 if none. */
  function LastPosition(s: seq<string>, p: string): (r: nat)
    ensures r <= |s|
    ensures r == 0 <==> p !in s
    ensures r > 0 ==> s[r - 1] == p && forall k | r <= k < |s| :: s[k] != p
  {
    if s == [] then 0
    else if s[|s| - 1] == p then |s|
    else
      var r := LastPosition(s[..|s| - 1], p);
      assert s == s[..|s| - 1] + [s[|s| - 1]];
      r
  }

  /** The loop over the sorted packets: the last position of each divider. */
  method DecoderKey(sorted: seq<string>) returns (key: int)
    ensures key == LastPosition(sorted, Divider2) * LastPosition(sorted, Divider6)
  {
    var index1 := 0;
    var index2 := 0;
    for i := 0 to |sorted|
      invariant index1 == LastPosition(sorted[..i], Divider2)
      invariant index2 == LastPosition(sorted[..i], Divider6)
    {
      assert sorted[..i + 1][..i] == sorted[..i];
      if sorted[i] == Divider2 {
        index1 := i + 1;
      } else if sorted[i] == Divider6 {
        index2 := i + 1;
      }
    }
    assert sorted[..|sorted|] == sorted;
    key := index1 * index2;
  }

  lemma DividersParse()
    ensures Parse(Divider2) == Some(List([List([Number(2)])]))
    ensures Parse(Divider6) == Some(List([List([Number(6)])]))
  {
    var two, six := List([List([Number(2)])]), List([List([Number(6)])]);
    assert Show(two) == Divider2;
    assert Show(six) == Divider6;
    ParseShow(two);
    ParseShow(six);
  }

  /** `[[2]]` comes before `[[6]]`. */
  lemma DividersCompare()
    ensures Compare(List([List([Number(2)])]), List([List([Number(6)])]))
  {
    var inner2, inner6 := List([Number(2)]), List([Number(6)]);
    assert Compare(inner2, inner6) by {
      assert CompareFrom([Number(2)], [Number(6)], 0);
    }
    assert CompareFrom([inner2], [inner6], 0);
  }

  /** In sorted packets both dividers are present, `[[2]]` before `[[6]]`,
      so the decoder key is the product of two distinct positive positions. */
  lemma DividersOrdered(lines: seq<string>, sorted: seq<string>)
    requires SortedPackets(sorted, Packets(lines))
    ensures 0 < LastPosition(sorted, Divider2) < LastPosition(sorted, Divider6)
  {
    var packets := Packets(lines);
    assert Divider2 in multiset(packets) && Divider6 in multiset(packets) by {
      assert packets[|packets| - 2] == Divider2;
      assert packets[|packets| - 1] == Divider6;
    }
    assert Divider2 in multiset(sorted) && Divider6 in multiset(sorted);
    var i, j := LastPosition(sorted, Divider2) - 1, LastPosition(sorted, Divider6) - 1;
    DividersParse();
    DividersCompare();
    assert i != j;
  }

  /** Part 2 as written, given what the sort leaves: `None` when a packet
      does not parse (the comparator panics), else the decoder key. */
  method SolvePart2(lines: seq<string>, sorted: seq<string>) returns (key: Option<int>)
    requires AllParse(Packets(lines)) ==> SortedPackets(sorted, Packets(lines))
    ensures key.None? <==> !AllParse(Packets(lines))
    ensures key.Some? ==> key.value == LastPosition(sorted, Divider2) * LastPosition(sorted, Divider6)
    ensures key.Some? ==> 0 < LastPosition(sorted, Divider2) < LastPosition(sorted, Divider6)
  {
    var packets := Packets(lines);
    if !AllParse(packets) {
      return None;
    }
    DividersOrdered(lines, sorted);
    var k := DecoderKey(sorted);
    key := Some(k);
  }
}
