/** Ordering and paging of query results: values that look like integers are compared as numbers by the
    length and text of their digits, others as text. */
module QueryOrder {
  import opened ChainModel
  import opened BigDecimal
  import opened DecimalText

  datatype Json = JNull | JBool(on: bool) | JNumber(text: string) | JString(text: string) | JCompound

  datatype Ordering = Less | Equal | Greater

  function Compare(a: int, b: int): Ordering {
    if a < b then Less else if a > b then Greater else Equal
  }

  function Reverse(o: Ordering): Ordering {
    match o case Less => Greater case Equal => Equal case Greater => Less
  }

  /** Text order, character by character. */
  function CompareText(a: string, b: string): Ordering {
    if a == [] then if b == [] then Equal else Less
    else if b == [] then Greater
    else if a[0] < b[0] then Less
    else if a[0] > b[0] then Greater
    else CompareText(a[1..], b[1..])
  }

  // ----- decimal text -----

  function WithoutSign(s: string): string {
    if s != "" && s[0] == '-' then s[1..] else s
  }

  predicate IsDecimal(s: string) {
    WithoutSign(s) != "" && AllDigits(WithoutSign(s))
  }

  function TrimLeft(s: string, c: char): string {
    if s != "" && s[0] == c then TrimLeft(s[1..], c) else s
  }

  /** A sign and digits without leading zeros; zero has no sign. */
  function NormalizeDecimal(s: string): (bool, string) {
    var negative := s != "" && s[0] == '-';
    var digits := TrimLeft(TrimLeft(s, '-'), '0');
    (negative && digits != "", if digits == "" then "0" else digits)
  }

  function CompareUnsigned(a: string, b: string): Ordering {
    if |a| != |b| then Compare(|a|, |b|) else CompareText(a, b)
  }

  function CompareDecimalStrings(a: string, b: string): Ordering {
    var (na, da), (nb, db) := NormalizeDecimal(a), NormalizeDecimal(b);
    if na && !nb then Less
    else if !na && nb then Greater
    else if !na then CompareUnsigned(da, db)
    else CompareUnsigned(db, da)
  }

  /** The integer a decimal text denotes. */
  function IntegerOf(s: string): int
    requires IsDecimal(s)
  {
    var v: int := NatValue(WithoutSign(s));
    if s[0] == '-' then -v else v
  }

  // ----- text order of digits is number order -----

  /** The first digit counts most. */
  lemma {:induction false} FirstDigit(c: char, t: string)
    requires IsDigit(c) && AllDigits(t)
    ensures AllDigits([c] + t) && NatValue([c] + t) == Shift(DigitValue(c), |t|) + NatValue(t)
  {
    var s := [c] + t;
    if t == "" {
      assert s[..0] == "" && s[0] == c;
    } else {
      var n := |t| - 1;
      var u := t[..n];
      assert forall x :: x in u ==> x in t;
      FirstDigit(c, u);
      assert s[..n + 1] == [c] + u && s[n + 1] == t[n];
    }
  }

  lemma {:induction false} DigitsBound(t: string)
    requires AllDigits(t)
    ensures NatValue(t) < Pow10(|t|)
  {
    if t != "" {
      var n := |t| - 1;
      var u := t[..n];
      assert forall x :: x in u ==> x in t;
      DigitsBound(u);
      assert t[n] in t && DigitValue(t[n]) <= 9;
      assert NatValue(t) == 10 * NatValue(u) + DigitValue(t[n]);
      assert Pow10(|t|) == 10 * Pow10(n);
    }
  }

  lemma {:induction false} TextIsNumber(a: string, b: string)
    requires |a| == |b| && AllDigits(a) && AllDigits(b)
    ensures CompareText(a, b) == Compare(NatValue(a), NatValue(b))
  {
    if a != "" {
      var c, d, t, u, n := a[0], b[0], a[1..], b[1..], |a| - 1;
      assert c in a && d in b && forall x :: (x in t ==> x in a) && (x in u ==> x in b);
      assert a == [c] + t && b == [d] + u;
      FirstDigit(c, t);
      FirstDigit(d, u);
      DigitsBound(t);
      DigitsBound(u);
      if c < d {
        LeadDecides(DigitValue(c), DigitValue(d), n);
      } else if d < c {
        LeadDecides(DigitValue(d), DigitValue(c), n);
      } else {
        TextIsNumber(t, u);
      }
    }
  }

  lemma LeadDecides(x: nat, y: nat, n: nat)
    requires x < y
    ensures Shift(x, n) + Pow10(n) <= Shift(y, n)
  {
    ShiftAdd(x, 1, n);
    ShiftMono(x + 1, y, n);
  }

  /** Without leading zeros, more digits are a larger number. */
  lemma LongerLarger(a: string, b: string)
    requires AllDigits(a) && AllDigits(b) && |a| < |b| && b[0] != '0'
    ensures NatValue(a) < NatValue(b)
  {
    var t, n := b[1..], |b| - 1;
    assert b[0] in b && forall x :: x in t ==> x in b;
    assert b == [b[0]] + t;
    FirstDigit(b[0], t);
    DigitsBound(a);
    Pow10Mono(|a|, n);
    ShiftMono(1, DigitValue(b[0]), n);
  }

  lemma {:induction false} TrimmedZeros(s: string)
    requires AllDigits(s)
    ensures AllDigits(TrimLeft(s, '0')) && NatValue(TrimLeft(s, '0')) == NatValue(s)
    ensures TrimLeft(s, '0') != "" ==> TrimLeft(s, '0')[0] != '0'
    ensures TrimLeft(s, '0') == "" ==> NatValue(s) == 0
  {
    if s != "" && s[0] == '0' {
      var t := s[1..];
      assert forall x :: x in t ==> x in s;
      assert s == ['0'] + t;
      FirstDigit('0', t);
      ShiftZero(|t|);
      TrimmedZeros(t);
    }
  }

  /** Digits as `NormalizeDecimal` leaves them. */
  predicate PlainDigits(d: string) {
    d == "0" || (d != "" && AllDigits(d) && d[0] != '0')
  }

  lemma UnsignedIsNumber(a: string, b: string)
    requires PlainDigits(a) && PlainDigits(b)
    ensures AllDigits(a) && AllDigits(b) && CompareUnsigned(a, b) == Compare(NatValue(a), NatValue(b))
  {
    if |a| == |b| {
      TextIsNumber(a, b);
    } else if |a| < |b| {
      LongerLarger(a, b);
    } else {
      LongerLarger(b, a);
    }
  }

  lemma NormalizedMeaning(s: string)
    requires IsDecimal(s)
    ensures PlainDigits(NormalizeDecimal(s).1) && AllDigits(NormalizeDecimal(s).1)
    ensures IntegerOf(s)
            == if NormalizeDecimal(s).0 then 0 - NatValue(NormalizeDecimal(s).1) else NatValue(NormalizeDecimal(s).1)
    ensures NormalizeDecimal(s).0 ==> NatValue(NormalizeDecimal(s).1) > 0
  {
    var body := WithoutSign(s);
    SignTrimmed(s, body);
    TrimmedZeros(body);
    var d := TrimLeft(body, '0');
    if d != "" {
      DigitPositive(d);
    } else {
      assert "0"[..0] == "";
    }
  }

  lemma SignTrimmed(s: string, body: string)
    requires IsDecimal(s) && body == WithoutSign(s)
    ensures TrimLeft(s, '-') == body
  {
    assert body[0] in body;
    assert TrimLeft(body, '-') == body;
  }

  lemma DigitPositive(d: string)
    requires d != "" && AllDigits(d) && d[0] != '0'
    ensures NatValue(d) > 0
  {
    LongerLarger("", d);
  }

  /** On integer texts the comparison is exactly that of the integers. */
  lemma DecimalOrder(a: string, b: string)
    requires IsDecimal(a) && IsDecimal(b)
    ensures CompareDecimalStrings(a, b) == Compare(IntegerOf(a), IntegerOf(b))
  {
    NormalizedMeaning(a);
    NormalizedMeaning(b);
    var da, db := NormalizeDecimal(a).1, NormalizeDecimal(b).1;
    UnsignedIsNumber(da, db);
    UnsignedIsNumber(db, da);
  }

  // ----- values -----

  function TextOf(v: Json): Option<string> {
    match v
    case JString(t) => Some(t)
    case JNumber(t) => Some(t)
    case JBool(on) => Some(if on then "true" else "false")
    case _ => None
  }

  function DecimalString(v: Json): Option<string> {
    match v
    case JNumber(t) => Some(t)
    case JString(t) => if IsDecimal(t) then Some(t) else None
    case _ => None
  }

  function CompareJson(a: Json, b: Json): Option<Ordering> {
    var da, db := DecimalString(a), DecimalString(b);
    if da.Some? && db.Some? then Some(CompareDecimalStrings(da.value, db.value))
    else
      var ta, tb := TextOf(a), TextOf(b);
      if ta.Some? && tb.Some? then Some(CompareText(ta.value, tb.value)) else None
  }

  /** Rows without the field come first; values that cannot be compared count as equal. */
  function CompareRows(a: Option<Json>, b: Option<Json>): Ordering {
    if a.Some? && b.Some? then
      var o := CompareJson(a.value, b.value);
      if o.Some? then o.value else Equal
    else if a.Some? then Greater
    else if b.Some? then Less
    else Equal
  }

  predicate IsInteger(v: Option<Json>) {
    v.Some? && ((v.value.JNumber? && IsDecimal(v.value.text)) || (v.value.JString? && IsDecimal(v.value.text)))
  }

  function NumberOf(v: Option<Json>): int
    requires IsInteger(v)
  {
    IntegerOf(v.value.text)
  }

  lemma IntegerRows(a: Option<Json>, b: Option<Json>)
    requires IsInteger(a) && IsInteger(b)
    ensures CompareRows(a, b) == Compare(NumberOf(a), NumberOf(b))
  {
    DecimalOrder(a.value.text, b.value.text);
  }

  /** In a column that mixes integers with other text the comparison goes round in a circle, and a null is
      equal to everything: the hypothesis of an all-integer column is needed. */
  lemma MixedColumnCycles()
    ensures var ten, b, nine := Some(JString("10")), Some(JString("2b")), Some(JString("9"));
            CompareRows(ten, b) == Less && CompareRows(b, nine) == Less && CompareRows(ten, nine) == Greater
    ensures var one, none, two := Some(JString("1")), Some(JNull), Some(JString("2"));
            CompareRows(two, none) == Equal && CompareRows(none, one) == Equal && CompareRows(two, one) == Greater
  {
    TextBetween();
    NullEqual();
  }

  lemma TextBetween()
    ensures var ten, b, nine := Some(JString("10")), Some(JString("2b")), Some(JString("9"));
            CompareRows(ten, b) == Less && CompareRows(b, nine) == Less && CompareRows(ten, nine) == Greater
  {
    assert IsDecimal("10") && IsDecimal("9");
    assert 'b' in WithoutSign("2b");
    DecimalOrder("10", "9");
    assert "10"[..1] == "1" && "1"[..0] == "" && "9"[..0] == "";
    assert NatValue("1") == 1 && NatValue("10") == 10 && NatValue("9") == 9;
  }

  lemma NullEqual()
    ensures var one, none, two := Some(JString("1")), Some(JNull), Some(JString("2"));
            CompareRows(two, none) == Equal && CompareRows(none, one) == Equal && CompareRows(two, one) == Greater
  {
    assert IsDecimal("1") && IsDecimal("2");
    DecimalOrder("2", "1");
    assert "1"[..0] == "" && "2"[..0] == "";
    assert NatValue("1") == 1 && NatValue("2") == 2;
  }

  /** A fraction is not an integer text, so fractions are compared as text: 9.5 comes after 10.5. */
  lemma FractionsAsText()
    ensures CompareRows(Some(JString("9.5")), Some(JString("10.5"))) == Greater
  {
    assert '.' in WithoutSign("9.5") && '.' in WithoutSign("10.5");
  }

  // ----- sorting -----

  /** A stable sort by insertion: `before(x, y)` says that `y` must not come first. */
  function Insert<E>(x: E, xs: seq<E>, order: (E, E) -> Ordering): seq<E> {
    if xs == [] || order(x, xs[0]) != Greater then [x] + xs else [xs[0]] + Insert(x, xs[1..], order)
  }

  function StableSort<E>(xs: seq<E>, order: (E, E) -> Ordering): seq<E> {
    if xs == [] then [] else Insert(xs[0], StableSort(xs[1..], order), order)
  }

  ghost predicate SortedBy<E>(xs: seq<E>, rank: E -> int) {
    forall i, j :: 0 <= i < j < |xs| ==> rank(xs[i]) <= rank(xs[j])
  }

  /** The order compares by a rank. */
  ghost predicate Ranks<E(!new)>(order: (E, E) -> Ordering, rank: E -> int, xs: seq<E>) {
    forall a, b :: a in xs && b in xs ==> order(a, b) == Compare(rank(a), rank(b))
  }

  lemma {:induction false} InsertKeeps<E>(x: E, xs: seq<E>, order: (E, E) -> Ordering)
    ensures multiset(Insert(x, xs, order)) == multiset(xs) + multiset{x}
  {
    if xs != [] && order(x, xs[0]) == Greater {
      InsertKeeps(x, xs[1..], order);
      assert xs == [xs[0]] + xs[1..];
    }
  }

  lemma {:induction false} InsertSorts<E(!new)>(x: E, xs: seq<E>, order: (E, E) -> Ordering, rank: E -> int,
                                                all: seq<E>)
    requires Ranks(order, rank, all) && x in all && (forall y :: y in xs ==> y in all) && SortedBy(xs, rank)
    ensures SortedBy(Insert(x, xs, order), rank)
  {
    if xs != [] {
      assert order(x, xs[0]) == Compare(rank(x), rank(xs[0])) by { assert xs[0] in xs; }
      if order(x, xs[0]) == Greater {
        var t := xs[1..];
        assert xs == [xs[0]] + t;
        InsertSorts(x, t, order, rank, all);
        InsertKeeps(x, t, order);
        AllAtLeast(xs[0], x, xs, Insert(x, t, order), rank);
      }
    }
  }

  lemma AllAtLeast<E(!new)>(least: E, x: E, xs: seq<E>, r: seq<E>, rank: E -> int)
    requires xs != [] && least == xs[0] && SortedBy(xs, rank) && rank(least) <= rank(x) && SortedBy(r, rank)
    requires multiset(r) == multiset(xs[1..]) + multiset{x}
    ensures SortedBy([least] + r, rank)
  {
    forall j | 0 <= j < |r| ensures rank(least) <= rank(r[j]) {
      assert r[j] in multiset(r);
      if r[j] != x {
        assert r[j] in xs[1..];
        var k :| 0 <= k < |xs[1..]| && xs[1..][k] == r[j];
        assert xs[k + 1] == r[j];
      }
    }
  }

  lemma {:induction false} InsertStable<E(!new)>(x: E, xs: seq<E>, order: (E, E) -> Ordering, rank: E -> int,
                                                 all: seq<E>, r: int)
    requires Ranks(order, rank, all) && x in all && forall y :: y in xs ==> y in all
    ensures Having(Insert(x, xs, order), rank, r) == (if rank(x) == r then [x] else []) + Having(xs, rank, r)
  {
    HavingCons(x, xs, rank, r);
    if xs != [] && order(x, xs[0]) == Greater {
      var t := xs[1..];
      assert xs == [xs[0]] + t && xs[0] in xs;
      assert rank(x) > rank(xs[0]);
      InsertStable(x, t, order, rank, all, r);
      HavingCons(xs[0], Insert(x, t, order), rank, r);
    }
  }

  lemma HavingCons<E>(x: E, xs: seq<E>, rank: E -> int, r: int)
    ensures Having([x] + xs, rank, r) == (if rank(x) == r then [x] else []) + Having(xs, rank, r)
  {
    assert ([x] + xs)[1..] == xs;
  }

  /** The elements with a given rank, in their order. */
  function Having<E>(xs: seq<E>, rank: E -> int, r: int): seq<E> {
    if xs == [] then [] else (if rank(xs[0]) == r then [xs[0]] else []) + Having(xs[1..], rank, r)
  }

  /** The sort puts ranks in order, loses and adds nothing, and keeps the order of equal ranks. */
  lemma {:induction false} SortMeaning<E(!new)>(xs: seq<E>, order: (E, E) -> Ordering, rank: E -> int, all: seq<E>)
    requires Ranks(order, rank, all) && forall y :: y in xs ==> y in all
    ensures SortedBy(StableSort(xs, order), rank) && multiset(StableSort(xs, order)) == multiset(xs)
    ensures forall r: int :: Having(StableSort(xs, order), rank, r) == Having(xs, rank, r)
  {
    if xs != [] {
      var t := xs[1..];
      assert xs == [xs[0]] + t;
      SortMeaning(t, order, rank, all);
      var s := StableSort(t, order);
      forall y | y in s ensures y in all { assert y in multiset(s) && y in t; }
      InsertSorts(xs[0], s, order, rank, all);
      InsertKeeps(xs[0], s, order);
      forall r: int ensures Having(Insert(xs[0], s, order), rank, r) == Having(xs, rank, r) {
        InsertStable(xs[0], s, order, rank, all, r);
      }
    }
  }

  // ----- the query -----

  function Skip<E>(xs: seq<E>, n: nat): seq<E> {
    if n >= |xs| then [] else xs[n..]
  }

  function Take<E>(xs: seq<E>, n: nat): seq<E> {
    if n >= |xs| then xs else xs[..n]
  }

  function RowOrder<E>(field: E -> Option<Json>, desc: bool): (E, E) -> Ordering {
    (a, b) => var o := CompareRows(field(a), field(b)); if desc then Reverse(o) else o
  }

  /** Sorting, then the page; without arguments a page has 100 rows from the start. */
  function ApplyEntityArgs<E>(rows: seq<E>, field: E -> Option<Json>, desc: bool, skip: Option<nat>,
                              first: Option<nat>): seq<E>
  {
    var sorted := StableSort(rows, RowOrder(field, desc));
    Take(Skip(sorted, if skip.Some? then skip.value else 0), if first.Some? then first.value else 100)
  }

  /** The rank a row is sorted by. */
  function RankOf<E>(field: E -> Option<Json>, desc: bool): E -> int {
    e => if IsInteger(field(e)) then (if desc then -NumberOf(field(e)) else NumberOf(field(e))) else 0
  }

  /** On a column of integers without nulls the rows come in number order, ascending or descending, each
      once, with equal numbers in their stored order. */
  lemma IntegerColumnSorted<E(!new)>(rows: seq<E>, field: E -> Option<Json>, desc: bool)
    requires forall e :: e in rows ==> IsInteger(field(e))
    ensures var sorted, rank := StableSort(rows, RowOrder(field, desc)), RankOf(field, desc);
            && SortedBy(sorted, rank) && multiset(sorted) == multiset(rows)
            && forall r: int :: Having(sorted, rank, r) == Having(rows, rank, r)
  {
    var order, rank := RowOrder(field, desc), RankOf(field, desc);
    forall a, b | a in rows && b in rows ensures order(a, b) == Compare(rank(a), rank(b)) {
      IntegerRows(field(a), field(b));
    }
    SortMeaning(rows, order, rank, rows);
  }

  /** Where page `k` of `n` rows starts. */
  function PageStart(k: nat, n: nat): nat {
    k * n
  }

  /** The first `m` pages of `n` rows, one after the other. */
  function Pages<E>(rows: seq<E>, field: E -> Option<Json>, desc: bool, n: nat, m: nat): seq<E> {
    if m == 0 then []
    else Pages(rows, field, desc, n, m - 1) + ApplyEntityArgs(rows, field, desc, Some(PageStart(m - 1, n)), Some(n))
  }

  lemma NextPage(k: nat, m: nat, n: nat)
    requires m == k + 1
    ensures PageStart(m, n) == PageStart(k, n) + n
  {
  }

  lemma {:induction false} PagesTake<E>(rows: seq<E>, field: E -> Option<Json>, desc: bool, n: nat, m: nat,
                                        sorted: seq<E>)
    requires sorted == StableSort(rows, RowOrder(field, desc))
    ensures Pages(rows, field, desc, n, m) == Take(sorted, PageStart(m, n))
  {
    if m > 0 {
      var k := m - 1;
      PagesTake(rows, field, desc, n, k, sorted);
      NextPage(k, m, n);
      OnePage(rows, field, desc, PageStart(k, n), n, sorted);
      TakeSkip(sorted, PageStart(k, n), n, PageStart(m, n));
    }
  }

  lemma OnePage<E>(rows: seq<E>, field: E -> Option<Json>, desc: bool, start: nat, n: nat, sorted: seq<E>)
    requires sorted == StableSort(rows, RowOrder(field, desc))
    ensures ApplyEntityArgs(rows, field, desc, Some(start), Some(n)) == Take(Skip(sorted, start), n)
  {
  }

  lemma TakeSkip<E>(xs: seq<E>, a: nat, n: nat, b: nat)
    requires b == a + n
    ensures Take(xs, a) + Take(Skip(xs, a), n) == Take(xs, b)
  {
  }

  /** Enough pages give the whole list, as this stable sort sorts it. */
  lemma PagesAreAll<E>(rows: seq<E>, field: E -> Option<Json>, desc: bool, n: nat, m: nat)
    requires PageStart(m, n) >= |rows|
    ensures Pages(rows, field, desc, n, m) == StableSort(rows, RowOrder(field, desc))
  {
    PagesTake(rows, field, desc, n, m, StableSort(rows, RowOrder(field, desc)));
    SortLength(rows, RowOrder(field, desc));
  }

  lemma {:induction false} InsertLength<E>(x: E, xs: seq<E>, order: (E, E) -> Ordering)
    ensures |Insert(x, xs, order)| == |xs| + 1
  {
    if xs != [] && order(x, xs[0]) == Greater { InsertLength(x, xs[1..], order); }
  }

  lemma {:induction false} SortLength<E>(xs: seq<E>, order: (E, E) -> Ordering)
    ensures |StableSort(xs, order)| == |xs|
  {
    if xs != [] {
      SortLength(xs[1..], order);
      InsertLength(xs[0], StableSort(xs[1..], order), order);
    }
  }
}
