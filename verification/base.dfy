/** Shared vocabulary of the model: optional values, results carrying the
    services' exceptions, `findOne`/`find`-style searches over a table held as
    a sequence, a stable sort, and the handful of JavaScript string and number
    primitives the services rely on (`includes`, `startsWith`, `parseInt`,
    `Number.prototype.toString`, `\s`, `\d`). */
module Base {

  datatype Option<+T> = None | Some(value: T)

  /** The exceptions thrown by the services of the model. `TariffNotLoaded` is
      the TypeError of reading `.name` from a grant whose tariff row is missing. */
  datatype Error = DialogNotFound | FreeTariffNotFound | PremiumTariffNotFound | TariffNotLoaded

  datatype Result<+T> = Ok(value: T) | Err(error: Error)

  function Min(a: int, b: int): int { if a <= b then a else b }

  // ---------------------------------------------------------------------------
  // Searching and filtering a table
  // ---------------------------------------------------------------------------

  /** Position of the first row satisfying `p`: the row a repository
      `findOne({ where })` returns. */
  function FirstIndex<T>(s: seq<T>, p: T -> bool): (r: Option<nat>)
    ensures r.Some? ==> r.value < |s| && p(s[r.value])
    ensures r.Some? ==> forall j :: 0 <= j < r.value ==> !p(s[j])
    ensures r.None? <==> forall j :: 0 <= j < |s| ==> !p(s[j])
  {
    if |s| == 0 then None
    else if p(s[0]) then Some(0)
    else match FirstIndex(s[1..], p)
      case None => None
      case Some(i) => Some(i + 1)
  }

  /** `FirstIndex` is characterised by its contract: the first row that
      satisfies `p` is at `k` exactly when row `k` does and no earlier row does. */
  lemma FirstIndexIs<T>(s: seq<T>, p: T -> bool, k: nat)
    requires k < |s| && p(s[k])
    requires forall j :: 0 <= j < k ==> !p(s[j])
    ensures FirstIndex(s, p) == Some(k)
  {
  }

  /** The first match in a table that grew by one row at the end: the old
      first match if there was one, else the new row if it matches. */
  lemma FirstIndexAppend<T>(s: seq<T>, x: T, p: T -> bool)
    ensures FirstIndex(s + [x], p)
            == if FirstIndex(s, p).Some? then FirstIndex(s, p)
               else if p(x) then Some(|s|) else None
  {
    var t := s + [x];
    assert forall j :: 0 <= j < |s| ==> t[j] == s[j];
    match FirstIndex(s, p)
    case Some(k) => FirstIndexIs(t, p, k);
    case None => if p(x) { FirstIndexIs(t, p, |s|); }
  }

  /** The rows satisfying `p`, in table order: a repository `find({ where })`. */
  function Filter<T>(s: seq<T>, p: T -> bool): (r: seq<T>)
    ensures |r| <= |s|
    ensures forall i :: 0 <= i < |r| ==> p(r[i])
  {
    if |s| == 0 then []
    else Filter(s[..|s| - 1], p) + (if p(s[|s| - 1]) then [s[|s| - 1]] else [])
  }

  /** Number of rows satisfying `p`: a repository `count({ where })`. */
  function Count<T>(s: seq<T>, p: T -> bool): nat
  {
    |Filter(s, p)|
  }

  /** Two tables that agree, row by row, on the predicate count the same rows. */
  lemma {:induction false} FilterEqualAt<T>(s: seq<T>, t: seq<T>, p: T -> bool)
    requires |s| == |t|
    requires forall i :: 0 <= i < |s| ==> p(s[i]) == p(t[i])
    ensures Count(s, p) == Count(t, p)
  {
    if |s| > 0 {
      FilterEqualAt(s[..|s| - 1], t[..|t| - 1], p);
    }
  }

  /** Filtering a table that grew by one row at the end. */
  lemma FilterAppend<T>(s: seq<T>, x: T, p: T -> bool)
    ensures Filter(s + [x], p) == Filter(s, p) + (if p(x) then [x] else [])
  {
    assert (s + [x])[..|s + [x]| - 1] == s;
  }

  /** Filtering a concatenation. */
  lemma {:induction false} FilterConcat<T>(s: seq<T>, t: seq<T>, p: T -> bool)
    ensures Filter(s + t, p) == Filter(s, p) + Filter(t, p)
    decreases |t|
  {
    if |t| == 0 {
      assert s + t == s;
    } else {
      var t', x := t[..|t| - 1], t[|t| - 1];
      var tail := if p(x) then [x] else [];
      assert t == t' + [x];
      assert s + t == (s + t') + [x];
      FilterAppend(s + t', x, p);
      FilterAppend(t', x, p);
      FilterConcat(s, t', p);
      assert Filter(s + t, p) == (Filter(s, p) + Filter(t', p)) + tail;
    }
  }

  /** Every row the filter keeps comes from the table, and every row of the
      table that satisfies the predicate is kept. */
  lemma {:induction false} FilterMembership<T>(s: seq<T>, p: T -> bool, x: T)
    ensures x in Filter(s, p) <==> x in s && p(x)
    decreases |s|
  {
    if |s| > 0 {
      var s' := s[..|s| - 1];
      assert s == s' + [s[|s| - 1]];
      FilterMembership(s', p, x);
    }
  }

  /** `FilterMembership` for every row at once. */
  lemma FilterMembershipAll<T>(s: seq<T>, p: T -> bool)
    ensures forall x :: x in Filter(s, p) <==> x in s && p(x)
  {
    forall x
      ensures x in Filter(s, p) <==> x in s && p(x)
    {
      FilterMembership(s, p, x);
    }
  }

  /** Counting with a weaker condition counts at least as many rows. */
  lemma {:induction false} FilterCountBound<T>(s: seq<T>, p: T -> bool, q: T -> bool)
    requires forall i :: 0 <= i < |s| ==> p(s[i]) ==> q(s[i])
    ensures Count(s, p) <= Count(s, q)
    decreases |s|
  {
    if |s| > 0 {
      FilterCountBound(s[..|s| - 1], p, q);
    }
  }

  /** An empty filter means no row satisfies the predicate. */
  lemma FilterEmpty<T>(s: seq<T>, p: T -> bool)
    requires |Filter(s, p)| == 0
    ensures forall i :: 0 <= i < |s| ==> !p(s[i])
  {
    forall i | 0 <= i < |s|
      ensures !p(s[i])
    {
      FilterMembership(s, p, s[i]);
    }
  }

  /** Filtering twice is filtering once by both predicates. */
  lemma {:induction false} FilterOfFilter<T>(s: seq<T>, p: T -> bool, q: T -> bool, pq: T -> bool)
    requires forall x :: pq(x) == (p(x) && q(x))
    ensures Filter(Filter(s, p), q) == Filter(s, pq)
  {
    if |s| > 0 {
      var init := s[..|s| - 1];
      var x := s[|s| - 1];
      FilterOfFilter(init, p, q, pq);
      assert Filter(s, p) == Filter(init, p) + (if p(x) then [x] else []);
      assert Filter(s, pq) == Filter(init, pq) + (if pq(x) then [x] else []);
      if p(x) {
        FilterAppend(Filter(init, p), x, q);
      } else {
        assert Filter(s, p) == Filter(init, p);
      }
    }
  }

  /** A filter whose predicate every row satisfies keeps the table. */
  lemma {:induction false} FilterAll<T>(s: seq<T>, p: T -> bool)
    requires forall i :: 0 <= i < |s| ==> p(s[i])
    ensures Filter(s, p) == s
    decreases |s|
  {
    if |s| > 0 {
      FilterAll(s[..|s| - 1], p);
    }
  }

  /** A filter whose predicate no row satisfies is empty. */
  lemma {:induction false} FilterNone<T>(s: seq<T>, p: T -> bool)
    requires forall i :: 0 <= i < |s| ==> !p(s[i])
    ensures Filter(s, p) == []
    decreases |s|
  {
    if |s| > 0 {
      FilterNone(s[..|s| - 1], p);
    }
  }

  /** Filters that agree on every row of the table give the same rows. */
  lemma {:induction false} FilterCongruent<T>(s: seq<T>, p: T -> bool, q: T -> bool)
    requires forall i :: 0 <= i < |s| ==> p(s[i]) == q(s[i])
    ensures Filter(s, p) == Filter(s, q)
    decreases |s|
  {
    if |s| > 0 {
      FilterCongruent(s[..|s| - 1], p, q);
    }
  }

  // ---------------------------------------------------------------------------
  // Ordering (`order: { column: 'ASC' }`)
  // ---------------------------------------------------------------------------

  ghost predicate SortedBy<T>(s: seq<T>, key: T -> int)
  {
    forall i, j :: 0 <= i < j < |s| ==> key(s[i]) <= key(s[j])
  }

  /** Filtering keeps table order: a sorted table filters to a sorted one. */
  lemma {:induction false} FilterSorted<T>(s: seq<T>, p: T -> bool, key: T -> int)
    requires SortedBy(s, key)
    ensures SortedBy(Filter(s, p), key)
  {
    if |s| > 0 {
      var init := s[..|s| - 1];
      var x := s[|s| - 1];
      FilterSorted(init, p, key);
      if p(x) {
        var f := Filter(init, p);
        forall i | 0 <= i < |f|
          ensures key(f[i]) <= key(x)
        {
          FilterMembership(init, p, f[i]);
          var k :| 0 <= k < |init| && init[k] == f[i];
        }
      }
    }
  }

  /** Inserts `x` after every row whose key is not larger (keeps equal keys in
      arrival order). */
  function Insert<T>(x: T, s: seq<T>, key: T -> int): (r: seq<T>)
    ensures |r| == |s| + 1
    ensures multiset(r) == multiset(s) + multiset{x}
  {
    if |s| == 0 then [x]
    else if key(x) < key(s[0]) then [x] + s
    else
      assert s == [s[0]] + s[1..];
      [s[0]] + Insert(x, s[1..], key)
  }

  lemma {:induction false} InsertSorted<T>(x: T, s: seq<T>, key: T -> int)
    requires SortedBy(s, key)
    ensures SortedBy(Insert(x, s, key), key)
    decreases |s|
  {
    if |s| > 0 && key(x) >= key(s[0]) {
      var rest := Insert(x, s[1..], key);
      InsertSorted(x, s[1..], key);
      assert s == [s[0]] + s[1..];
      forall i | 0 <= i < |rest|
        ensures key(s[0]) <= key(rest[i])
      {
        assert rest[i] in multiset(rest);
        if rest[i] != x {
          assert rest[i] in multiset(s[1..]);
          var k :| 0 <= k < |s[1..]| && s[1..][k] == rest[i];
          assert s[k + 1] == rest[i];
        }
      }
    }
  }

  /** Stable insertion sort by an integer key. */
  function SortBy<T>(s: seq<T>, key: T -> int): (r: seq<T>)
    ensures SortedBy(r, key)
    ensures multiset(r) == multiset(s)
  {
    if |s| == 0 then []
    else
      var init := s[..|s| - 1];
      assert s == init + [s[|s| - 1]];
      InsertSorted(s[|s| - 1], SortBy(init, key), key);
      Insert(s[|s| - 1], SortBy(init, key), key)
  }

  /** No row occurs twice. */
  ghost predicate Distinct<T>(s: seq<T>)
  {
    forall i, j :: 0 <= i < j < |s| ==> s[i] != s[j]
  }

  /** A row of a table without repeats occurs in it at most once. */
  lemma {:induction false} DistinctMultiplicity<T>(s: seq<T>, x: T)
    requires Distinct(s)
    ensures multiset(s)[x] <= 1
    decreases |s|
  {
    if |s| > 0 {
      var init := s[..|s| - 1];
      assert s == init + [s[|s| - 1]];
      DistinctMultiplicity(init, x);
      assert s[|s| - 1] !in init by {
        forall i | 0 <= i < |init|
          ensures init[i] != s[|s| - 1]
        {
          assert init[i] == s[i];
        }
      }
    }
  }

  /** A row at two positions occurs at least twice. */
  lemma Repeated<T>(s: seq<T>, i: nat, j: nat)
    requires i < j < |s| && s[i] == s[j]
    ensures multiset(s)[s[i]] >= 2
  {
    assert s == s[..j] + [s[j]] + s[j + 1..];
    assert s[..j][i] == s[i];
  }

  /** Reordering a table without repeats leaves it without repeats. */
  lemma DistinctPermutation<T>(s: seq<T>, t: seq<T>)
    requires Distinct(s) && multiset(s) == multiset(t)
    ensures Distinct(t)
  {
    forall i, j | 0 <= i < j < |t|
      ensures t[i] != t[j]
    {
      if t[i] == t[j] {
        Repeated(t, i, j);
        DistinctMultiplicity(s, t[i]);
        assert false;
      }
    }
  }

  // ---------------------------------------------------------------------------
  // JavaScript string primitives
  // ---------------------------------------------------------------------------

  /** `s.startsWith(prefix)`. */
  predicate StartsWith(s: string, prefix: string)
  {
    |prefix| <= |s| && s[..|prefix|] == prefix
  }

  /** `sub` occurs in `s` at position `i`. */
  predicate OccursAt(s: string, sub: string, i: int)
  {
    0 <= i <= |s| - |sub| && s[i..i + |sub|] == sub
  }

  /** `s.includes(sub)`. */
  predicate Contains(s: string, sub: string)
  {
    exists i | 0 <= i <= |s| - |sub| :: OccursAt(s, sub, i)
  }

  /** Regular-expression `\d`: ASCII digits only. */
  predicate IsDigit(c: char)
  {
    '0' <= c <= '9'
  }

  /** Regular-expression `\s`, which is also the set of characters `parseInt`
      skips: the ECMAScript WhiteSpace and LineTerminator characters. */
  predicate IsSpace(c: char)
  {
    || c == ' ' || c == '\t' || c == '\n' || c == '\r'
    || c == '\U{000B}' || c == '\U{000C}' || c == '\U{00A0}' || c == '\U{1680}'
    || ('\U{2000}' <= c <= '\U{200A}')
    || c == '\U{2028}' || c == '\U{2029}' || c == '\U{202F}' || c == '\U{205F}'
    || c == '\U{3000}' || c == '\U{FEFF}'
  }

  function DigitChar(d: nat): (c: char)
    requires d < 10
    ensures IsDigit(c)
  {
    "0123456789"[d]
  }

  /** Value of a character as a digit in base 10 or 16, if it is one. */
  function DigitValue(c: char, radix: nat): (r: Option<nat>)
    requires radix == 10 || radix == 16
    ensures r.Some? ==> r.value < radix
    ensures radix == 10 ==> (r.Some? <==> IsDigit(c))
  {
    if IsDigit(c) then Some(c as nat - '0' as nat)
    else if radix == 16 && 'a' <= c <= 'f' then Some(c as nat - 'a' as nat + 10)
    else if radix == 16 && 'A' <= c <= 'F' then Some(c as nat - 'A' as nat + 10)
    else None
  }

  /** Decimal rendering of a natural number, as `String(n)` prints it. */
  function NatToString(n: nat): (r: string)
    ensures |r| >= 1
    ensures forall i :: 0 <= i < |r| ==> IsDigit(r[i])
    ensures |r| > 1 ==> r[0] != '0'
  {
    if n < 10 then [DigitChar(n)] else NatToString(n / 10) + [DigitChar(n % 10)]
  }

  /** The longest prefix of `s` made of digits of the given base. */
  function LeadingDigits(s: string, radix: nat): (r: string)
    requires radix == 10 || radix == 16
    ensures |r| <= |s| && r == s[..|r|]
    ensures forall i :: 0 <= i < |r| ==> DigitValue(r[i], radix).Some?
    ensures |r| < |s| ==> DigitValue(s[|r|], radix).None?
  {
    if |s| == 0 || DigitValue(s[0], radix).None? then []
    else [s[0]] + LeadingDigits(s[1..], radix)
  }

  /** Positional value of a string of digits. */
  function DigitsValue(ds: string, radix: nat): nat
    requires radix == 10 || radix == 16
    requires forall i :: 0 <= i < |ds| ==> DigitValue(ds[i], radix).Some?
  {
    if |ds| == 0 then 0
    else DigitsValue(ds[..|ds| - 1], radix) * radix + DigitValue(ds[|ds| - 1], radix).value
  }

  function TrimStart(s: string): (r: string)
    ensures |r| <= |s| && r == s[|s| - |r|..]
    ensures |r| > 0 ==> !IsSpace(r[0])
  {
    if |s| > 0 && IsSpace(s[0]) then TrimStart(s[1..]) else s
  }

  /** The longest run of digits at the start of `v`, read in the given base;
      `None` when there is none. */
  function ParseDigits(v: string, radix: nat): Option<nat>
    requires radix == 10 || radix == 16
  {
    var ds := LeadingDigits(v, radix);
    if |ds| == 0 then None else Some(DigitsValue(ds, radix))
  }

  /** An unsigned literal: base 16 after a `0x`/`0X` prefix, base 10 otherwise. */
  function ParseUnsigned(u: string): Option<nat>
  {
    if |u| >= 2 && u[0] == '0' && (u[1] == 'x' || u[1] == 'X') then ParseDigits(u[2..], 16)
    else ParseDigits(u, 10)
  }

  /** `parseInt(s)` with no radix: skip leading white space, read an optional
      sign, then an unsigned literal; `NaN` (here `None`) when no digit
      follows. */
  function ParseInt(s: string): (r: Option<int>)
    // Blank text is `NaN`.
    ensures |TrimStart(s)| == 0 ==> r.None?
    // Only a leading minus makes the result negative.
    ensures r.Some? && r.value < 0 ==> TrimStart(s)[0] == '-'
    ensures |TrimStart(s)| > 0 && TrimStart(s)[0] != '-' && r.Some? ==> r.value >= 0
    // The sign applies to the literal after it.
    ensures |TrimStart(s)| > 0 && TrimStart(s)[0] == '-' ==>
      (r.Some? <==> ParseUnsigned(TrimStart(s)[1..]).Some?)
  {
    var t := TrimStart(s);
    if |t| > 0 && t[0] == '-' then
      match ParseUnsigned(t[1..])
      case None => None
      case Some(v) => Some(-(v as int))
    else if |t| > 0 && t[0] == '+' then
      match ParseUnsigned(t[1..])
      case None => None
      case Some(v) => Some(v)
    else
      match ParseUnsigned(t)
      case None => None
      case Some(v) => Some(v)
  }

  /** Reading back the decimal rendering of `n` gives `n`. */
  lemma {:induction false} DigitsValueOfNatToString(n: nat)
    ensures DigitsValue(NatToString(n), 10) == n
    decreases n
  {
    if n >= 10 {
      var s := NatToString(n);
      assert s[..|s| - 1] == NatToString(n / 10);
      DigitsValueOfNatToString(n / 10);
    }
  }

  /** `parseInt` stops at the first character that is not a digit: a decimal
      rendering followed by anything that does not start with a digit parses
      back to the rendered number. (An `x` right after a lone `0` would turn
      the literal into a hexadecimal one, so it is excluded too.) */
  lemma ParseIntOfNatToString(n: nat, rest: string)
    requires |rest| == 0 || (!IsDigit(rest[0]) && rest[0] != 'x' && rest[0] != 'X')
    ensures ParseInt(NatToString(n) + rest) == Some(n)
  {
    var d := NatToString(n);
    var s := d + rest;
    assert IsDigit(s[0]);
    ParseIntOfDigitStart(s);
    assert ParseUnsigned(s) == ParseDigits(s, 10) by {
      if |d| == 1 {
        assert |s| >= 2 ==> s[1] == rest[0];
      } else {
        assert s[0] == d[0];
      }
    }
    LeadingDigitsOfDigits(d, rest);
    DigitsValueOfNatToString(n);
  }

  /** After a `0x` prefix the digits are read in base 16: the value of the
      leading hexadecimal digits, and `NaN` when none follows the prefix. */
  lemma ParseIntOfHex(h: string)
    ensures ParseInt("0x" + h) == ParseDigits(h, 16)
    ensures ParseInt("0x" + h).None? <==> |h| == 0 || DigitValue(h[0], 16).None?
  {
    var s := "0x" + h;
    assert !IsSpace(s[0]);
    assert TrimStart(s) == s;
    assert s[2..] == h;
  }

  /** `parseInt("0x1F")` is 31. */
  lemma ParseIntHexExample(s: string)
    requires s == "0x" + "1F"
    ensures ParseInt(s) == Some(31)
  {
    ParseIntOfHex("1F");
    HexDigitsOneF();
  }

  lemma HexDigitsOneF()
    ensures ParseDigits("1F", 16) == Some(31)
  {
    assert DigitValue('1', 16) == Some(1) && DigitValue('F', 16) == Some(15);
    assert "1F"[1..] == "F" && "F"[1..] == "";
    assert LeadingDigits("F", 16) == "F";
    assert LeadingDigits("1F", 16) == "1F";
    assert "1F"[..1] == "1" && "1"[..0] == "";
    assert DigitsValue("1", 16) == 1;
  }

  /** A string that starts with a digit is read as an unsigned literal. */
  lemma ParseIntOfDigitStart(s: string)
    requires |s| > 0 && IsDigit(s[0])
    ensures ParseInt(s) == ParseUnsigned(s)
  {
    assert !IsSpace(s[0]);
    assert TrimStart(s) == s;
  }

  /** The leading digit run of `d + rest` is `d` when `d` is all digits and
      `rest` does not start with one. */
  lemma {:induction false} LeadingDigitsOfDigits(d: string, rest: string)
    requires forall i :: 0 <= i < |d| ==> IsDigit(d[i])
    requires |rest| == 0 || !IsDigit(rest[0])
    ensures LeadingDigits(d + rest, 10) == d
    decreases |d|
  {
    if |d| == 0 {
      assert d + rest == rest;
    } else {
      assert (d + rest)[1..] == d[1..] + rest;
      LeadingDigitsOfDigits(d[1..], rest);
    }
  }
}
