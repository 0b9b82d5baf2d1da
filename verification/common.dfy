/** Shared vocabulary of the ledger model: identifiers, money, optional values,
    service results, and folds over the id-keyed tables. */
module Common {

  /** Database identifiers (UUIDs in the system) and user identifiers. */
  type Id = nat
  type UserId = nat

  /** Money in whole cents: every amount column is DECIMAL(15, 2). */
  type Cents = int

  datatype Option<+T> = None | Some(value: T)

  /** The two exception classes the services throw, plus any runtime failure
      (a null dereference, a division by zero) that escapes them. A thrown
      exception rolls the whole service call back, so a failed call never
      carries a state. */
  datatype Error =
    | NotFound(message: string)     // ResourceNotFoundException
    | Business(message: string)     // BusinessException
    | Unexpected(message: string)   // any other RuntimeException

  datatype Result<+T> = Ok(value: T) | Err(error: Error) {
    predicate IsFailure() { Err? }
    function PropagateFailure<U>(): Result<U>
      requires Err?
    {
      Err(error)
    }
    function Extract(): T
      requires Ok?
    {
      value
    }
  }

  // ---------------------------------------------------------------------------
  // Iterating over a table in a fixed order

  lemma MinExists(s: set<nat>)
    requires s != {}
    ensures exists m :: m in s && forall x :: x in s ==> m <= x
  {
    var y :| y in s;
    MinAtMost(s, y);
  }

  /** Descending from any member reaches the least one. */
  lemma {:induction false} MinAtMost(s: set<nat>, y: nat)
    requires y in s
    ensures exists m :: m in s && forall x :: x in s ==> m <= x
    decreases y
  {
    if !(forall x :: x in s ==> y <= x) {
      var z :| z in s && z < y;
      MinAtMost(s, z);
    }
  }

  /** The smallest key of a non-empty key set. */
  function MinKey(s: set<nat>): (m: nat)
    requires s != {}
    ensures m in s
    ensures forall x :: x in s ==> m <= x
  {
    MinExists(s);
    var m :| m in s && forall x :: x in s ==> m <= x;
    m
  }

  /** The keys of a table in increasing order. */
  function SortedKeys(s: set<nat>): (ks: seq<nat>)
    ensures forall k :: k in s <==> k in ks
    ensures forall i, j :: 0 <= i < j < |ks| ==> ks[i] < ks[j]
    decreases |s|
  {
    if s == {} then []
    else
      var m := MinKey(s);
      [m] + SortedKeys(s - {m})
  }

  /** The rows of a table, in key order, that satisfy keep. */
  function Select<T(==)>(m: map<Id, T>, keep: T -> bool): (rows: seq<T>)
    ensures forall i :: 0 <= i < |rows| ==> keep(rows[i]) && rows[i] in m.Values
    ensures forall k :: k in m && keep(m[k]) ==> m[k] in rows
  {
    SelectFrom(SortedKeys(m.Keys), m, keep)
  }

  function SelectFrom<T(==)>(ks: seq<Id>, m: map<Id, T>, keep: T -> bool): (rows: seq<T>)
    requires forall k :: k in ks ==> k in m
    ensures forall i :: 0 <= i < |rows| ==> keep(rows[i]) && rows[i] in m.Values
    ensures forall k :: k in ks && keep(m[k]) ==> m[k] in rows
    ensures |rows| <= |ks|
  {
    if ks == [] then []
    else
      var rest := SelectFrom(ks[1..], m, keep);
      if keep(m[ks[0]]) then [m[ks[0]]] + rest else rest
  }

  // ---------------------------------------------------------------------------
  // Summing a table

  /** The sum of f over the rows of a table. Addition is commutative, so the
      order in which the rows are visited (here: by increasing key) does not
      matter; SumMapRemove states exactly that. */
  function SumMap<T>(m: map<Id, T>, f: T -> int): (sum: int)
    ensures (forall k :: k in m ==> f(m[k]) >= 0) ==> sum >= 0
    ensures (forall k :: k in m ==> f(m[k]) == 0) ==> sum == 0
    decreases |m.Keys|
  {
    if m.Keys == {} then 0
    else
      var k := MinKey(m.Keys);
      f(m[k]) + SumMap(m - {k}, f)
  }

  lemma SumMapEmpty<T>(m: map<Id, T>, f: T -> int)
    requires m.Keys == {}
    ensures SumMap(m, f) == 0
  {
  }

  /** Any row can be taken out of the sum first. */
  lemma {:induction false} SumMapRemove<T>(m: map<Id, T>, f: T -> int, k: Id)
    requires k in m
    ensures SumMap(m, f) == f(m[k]) + SumMap(m - {k}, f)
    decreases |m.Keys|
  {
    var mk := MinKey(m.Keys);
    if k != mk {
      var m1 := m - {mk};
      assert |m1.Keys| < |m.Keys| by {
        assert m1.Keys == m.Keys - {mk};
      }
      SumMapRemove(m1, f, k);
      var m2 := m - {k};
      assert m2.Keys != {} by { assert mk in m2.Keys; }
      assert MinKey(m2.Keys) == mk by {
        assert mk in m2.Keys;
        assert forall x :: x in m2.Keys ==> mk <= x;
      }
      assert m2 - {mk} == m1 - {k};
    }
  }

  /** Replacing one row changes the sum by the difference of its terms. */
  lemma SumMapUpdate<T>(m: map<Id, T>, f: T -> int, k: Id, v: T)
    requires k in m
    ensures SumMap(m[k := v], f) == SumMap(m, f) - f(m[k]) + f(v)
  {
    SumMapRemove(m, f, k);
    SumMapRemove(m[k := v], f, k);
    assert m[k := v] - {k} == m - {k};
  }

  /** Inserting a new row adds its term. */
  lemma SumMapInsert<T>(m: map<Id, T>, f: T -> int, k: Id, v: T)
    requires k !in m
    ensures SumMap(m[k := v], f) == SumMap(m, f) + f(v)
  {
    SumMapRemove(m[k := v], f, k);
    assert m[k := v] - {k} == m;
  }

  /** Two tables with the same keys whose rows have equal terms have equal sums. */
  lemma {:induction false} SumMapCongruent<T>(m: map<Id, T>, m': map<Id, T>, f: T -> int)
    requires m.Keys == m'.Keys
    requires forall k :: k in m ==> f(m[k]) == f(m'[k])
    ensures SumMap(m, f) == SumMap(m', f)
    decreases |m.Keys|
  {
    if m.Keys != {} {
      var k := MinKey(m.Keys);
      assert (m - {k}).Keys == (m' - {k}).Keys;
      assert |(m - {k}).Keys| < |m.Keys| by {
        assert (m - {k}).Keys == m.Keys - {k};
      }
      SumMapCongruent(m - {k}, m' - {k}, f);
    }
  }

  // ---------------------------------------------------------------------------
  // Decimal text

  function DigitChar(d: nat): (c: char)
    requires d < 10
    ensures '0' <= c <= '9'
    ensures c as int - '0' as int == d
  {
    ['0', '1', '2', '3', '4', '5', '6', '7', '8', '9'][d]
  }

  /** Decimal digits of n, most significant first, without leading zeros. */
  function NatToDecimal(n: nat): (s: string)
    ensures |s| >= 1
    ensures forall i :: 0 <= i < |s| ==> '0' <= s[i] <= '9'
    ensures DecimalValue(s) == n
    decreases n
  {
    if n < 10 then [DigitChar(n)]
    else
      var s := NatToDecimal(n / 10) + [DigitChar(n % 10)];
      DecimalValueSnoc(NatToDecimal(n / 10), DigitChar(n % 10));
      s
  }

  /** The number a string of decimal digits denotes. */
  function DecimalValue(s: string): int
  {
    if s == [] then 0
    else 10 * DecimalValue(s[..|s| - 1]) + (s[|s| - 1] as int - '0' as int)
  }

  lemma DecimalValueSnoc(s: string, c: char)
    ensures DecimalValue(s + [c]) == 10 * DecimalValue(s) + (c as int - '0' as int)
  {
    assert (s + [c])[..|s|] == s;
  }

  function Pow10(n: nat): (p: nat)
    ensures p >= 1
  {
    if n == 0 then 1 else 10 * Pow10(n - 1)
  }

  /** Writing digits after a prefix scales the prefix by ten per digit. */
  lemma {:induction false} DecimalValueAppend(a: string, b: string)
    ensures DecimalValue(a + b) == DecimalValue(a) * Pow10(|b|) + DecimalValue(b)
    decreases |b|
  {
    if b == [] {
      assert a + b == a;
    } else {
      var b' := b[..|b| - 1];
      var c := b[|b| - 1];
      var d := c as int - '0' as int;
      assert a + b == (a + b') + [c];
      assert b == b' + [c];
      DecimalValueSnoc(a + b', c);
      DecimalValueSnoc(b', c);
      DecimalValueAppend(a, b');
      var x, p := DecimalValue(a), Pow10(|b'|);
      assert Pow10(|b|) == 10 * p;
      ScaleByTen(x, p);
      assert DecimalValue(a + b) == 10 * (x * p + DecimalValue(b')) + d;
    }
  }

  lemma ScaleByTen(x: int, p: int)
    ensures 10 * (x * p) == x * (10 * p)
  {
  }

  /** Java's Integer.toString: a minus sign for negative values. */
  function IntToDecimal(n: int): (s: string)
    ensures n >= 0 ==> s == NatToDecimal(n)
    ensures n < 0 ==> s == "-" + NatToDecimal(-n)
  {
    if n >= 0 then NatToDecimal(n) else "-" + NatToDecimal(-n)
  }
}
