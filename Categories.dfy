/** Roulette outcomes and the two fixed partitions of 1..36 into three
    categories: columns and dozens.  Category 0 means "no category" and is
    what the zero (and any value outside the tables) maps to. */
module Categories {

  /** The partition an analysis uses.  The analyzer is driven by a string
      `tipo`; only the exact string "columna" selects columns, every other
      value selects dozens. */
  datatype Scheme = Column | Dozen

  function SchemeOf(tipo: string): (s: Scheme)
    ensures s == Column <==> tipo == "columna"
  {
    if tipo == "columna" then Column else Dozen
  }

  /** An outcome that the history accepts. */
  predicate IsOutcome(n: int) {
    0 <= n <= 36
  }

  /** `list(range(lo, hi))` */
  function Range(lo: int, hi: int): (r: seq<int>)
    requires lo <= hi
    ensures |r| == hi - lo
    ensures forall n :: n in r <==> lo <= n < hi
  {
    var r := seq(hi - lo, i => lo + i);
    forall n | lo <= n < hi
      ensures n in r
    {
      assert r[n - lo] == n;
    }
    r
  }

  /** The twelve numbers first, first + 3, ..., first + 33. */
  function EveryThird(first: int): (r: seq<int>)
    ensures |r| == 12
    ensures forall n :: n in r <==> first <= n < first + 36 && (n - first) % 3 == 0
  {
    var r := seq(12, i => first + 3 * i);
    forall n | first <= n < first + 36 && (n - first) % 3 == 0
      ensures n in r
    {
      assert r[(n - first) / 3] == n;
    }
    r
  }

  /** The column table, in the order the lookup visits it:
      column 1 is 1, 4, ..., 34; column 2 is 2, 5, ..., 35; column 3 is 3, 6, ..., 36. */
  const ColumnTables: seq<seq<int>> := [EveryThird(1), EveryThird(2), EveryThird(3)]

  /** The dozen table, in the order the lookup visits it (dozens 1, 2, 3). */
  const DozenTables: seq<seq<int>> := [Range(1, 13), Range(13, 25), Range(25, 37)]

  function Tables(s: Scheme): seq<seq<int>> {
    match s
    case Column => ColumnTables
    case Dozen => DozenTables
  }

  /** The column of a number: 1, 2 or 3 as n mod 3 is 1, 2 or 0, and 0 for
      the zero and for anything outside 1..36. */
  function ColumnOf(n: int): (c: int)
    ensures 0 <= c <= 3
    ensures c == 0 <==> !(1 <= n <= 36)
    ensures 1 <= n <= 36 ==> c % 3 == n % 3
  {
    if 1 <= n <= 36 then (if n % 3 == 0 then 3 else n % 3) else 0
  }

  /** The dozen of a number (1..12, 13..24, 25..36), and 0 for the zero and
      for anything outside 1..36. */
  function DozenOf(n: int): (c: int)
    ensures 0 <= c <= 3
    ensures c == 0 <==> !(1 <= n <= 36)
    ensures 1 <= n <= 36 ==> c == (n - 1) / 12 + 1
  {
    if !(1 <= n <= 36) then 0
    else if n <= 12 then 1
    else if n <= 24 then 2
    else 3
  }

  /** The category of `n` under the chosen scheme. */
  function CategoryOf(s: Scheme, n: int): (c: int)
    ensures 0 <= c <= 3
    ensures c == 0 <==> !(1 <= n <= 36)
  {
    match s
    case Column => ColumnOf(n)
    case Dozen => DozenOf(n)
  }

  /** The lookup of the analyzer: 0 for the zero, otherwise the number of
      the first table, in table order, that lists `n`, and 0 when none does. */
  method Lookup(s: Scheme, n: int) returns (c: int)
    ensures c == CategoryOf(s, n)
  {
    if n == 0 {
      return 0;
    }
    var tables := Tables(s);
    TablesPartition(s, n);
    for k := 0 to |tables|
      invariant forall j :: 0 <= j < k ==> n !in tables[j]
    {
      if n in tables[k] {
        return k + 1;
      }
    }
    return 0;
  }

  /** In each scheme the three tables are pairwise disjoint, together they
      cover exactly 1..36, and a number's table is the one its category names. */
  lemma {:induction false} TablesPartition(s: Scheme, n: int)
    ensures |Tables(s)| == 3
    ensures forall c, d :: 0 <= c < d < 3 ==> !(n in Tables(s)[c] && n in Tables(s)[d])
    ensures (1 <= n <= 36) <==> (exists c :: 0 <= c < 3 && n in Tables(s)[c])
    ensures forall c :: 0 <= c < 3 ==> (n in Tables(s)[c] <==> CategoryOf(s, n) == c + 1)
  {
    TableMembership(s, 0, n);
    TableMembership(s, 1, n);
    TableMembership(s, 2, n);
    if 1 <= n <= 36 {
      assert n in Tables(s)[CategoryOf(s, n) - 1];
    }
  }

  /** Membership in one table, in closed form. */
  lemma {:induction false} TableMembership(s: Scheme, c: int, n: int)
    requires 0 <= c < 3
    ensures n in Tables(s)[c] <==> CategoryOf(s, n) == c + 1
  {
    match s
    case Column =>
      assert Tables(s)[c] == EveryThird(c + 1);
      ColumnMembership(c + 1, n);
    case Dozen =>
      assert Tables(s)[c] == Range(12 * c + 1, 12 * c + 13);
  }

  lemma {:induction false} ColumnMembership(k: int, n: int)
    requires 1 <= k <= 3
    ensures (k <= n < k + 36 && (n - k) % 3 == 0) <==> ColumnOf(n) == k
  {
  }
}
