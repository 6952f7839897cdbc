/** When the comparison of a query's order-by column is an order at all, and when it is the order of numbers. */
module ColumnOrder {
  import opened ChainModel
  import opened BigDecimal
  import opened DecimalText
  import opened QueryOrder

  type Column = seq<Option<Json>>

  // ----- text order -----

  lemma {:induction false} TextReverse(a: string, b: string)
    ensures CompareText(b, a) == Reverse(CompareText(a, b))
  {
    if a != "" && b != "" && a[0] == b[0] { TextReverse(a[1..], b[1..]); }
  }

  lemma {:induction false} TextEqual(a: string, b: string)
    ensures CompareText(a, b) == Equal <==> a == b
  {
    if a != "" && b != "" {
      if a[0] == b[0] {
        TextEqual(a[1..], b[1..]);
        assert a == [a[0]] + a[1..] && b == [b[0]] + b[1..];
      }
    }
  }

  lemma {:induction false} TextTransitive(a: string, b: string, c: string)
    requires CompareText(a, b) != Greater && CompareText(b, c) != Greater
    ensures CompareText(a, c) != Greater
  {
    if a != "" && b != "" && c != "" && a[0] == b[0] == c[0] { TextTransitive(a[1..], b[1..], c[1..]); }
  }

  // ----- columns -----

  /** A value that is ordered: a text, a truth value, or a number of the store, which is whole. */
  predicate Scalar(v: Option<Json>) {
    v.Some? && (v.value.JString? || v.value.JBool? || (v.value.JNumber? && IsDecimal(v.value.text)))
  }

  /** A present value that has no text. */
  predicate Nothing(v: Option<Json>) {
    v.Some? && (v.value.JNull? || v.value.JCompound?)
  }

  predicate PlainColumn(xs: Column) {
    forall x :: x in xs ==> x.None? || Scalar(x) || Nothing(x)
  }

  function TextIn(v: Option<Json>): string
    requires Scalar(v)
  {
    TextOf(v.value).value
  }

  ghost predicate Transitive(xs: Column) {
    forall a, b, c :: a in xs && b in xs && c in xs && CompareRows(a, b) != Greater && CompareRows(b, c) != Greater ==>
      CompareRows(a, c) != Greater
  }

  /** Two integers with other text between them, in text order, are in the order of their numbers. */
  ghost predicate Interleaved(xs: Column) {
    forall i, t, j :: i in xs && t in xs && j in xs && Between(i, t, j) ==> NumberOf(i) < NumberOf(j)
  }

  predicate Between(i: Option<Json>, t: Option<Json>, j: Option<Json>) {
    && IsInteger(i) && Scalar(t) && !IsInteger(t) && IsInteger(j)
    && CompareText(TextIn(i), TextIn(t)) == Less && CompareText(TextIn(t), TextIn(j)) == Less
  }

  /** All values are one number, or all are one text. */
  ghost predicate OneValue(xs: Column) {
    forall a, b :: a in xs && b in xs && Scalar(a) && Scalar(b) ==>
      if IsInteger(a) && IsInteger(b) then NumberOf(a) == NumberOf(b) else TextIn(a) == TextIn(b)
  }

  lemma ScalarRows(a: Option<Json>, b: Option<Json>)
    requires Scalar(a) && Scalar(b)
    ensures CompareRows(a, b) == if IsInteger(a) && IsInteger(b) then Compare(NumberOf(a), NumberOf(b))
                                 else CompareText(TextIn(a), TextIn(b))
  {
    if IsInteger(a) && IsInteger(b) { IntegerRows(a, b); }
  }

  /** An integer's text is not another value's text. */
  lemma OtherText(i: Option<Json>, t: Option<Json>)
    requires IsInteger(i) && Scalar(t) && !IsInteger(t)
    ensures CompareText(TextIn(i), TextIn(t)) != Equal
  {
    TextEqual(TextIn(i), TextIn(t));
    assert 't' in WithoutSign("true") && 'f' in WithoutSign("false");
  }

  lemma RowsReverse(a: Option<Json>, b: Option<Json>)
    requires (a.None? || Scalar(a) || Nothing(a)) && (b.None? || Scalar(b) || Nothing(b))
    ensures CompareRows(b, a) == Reverse(CompareRows(a, b))
  {
    if Scalar(a) && Scalar(b) {
      ScalarRows(a, b);
      ScalarRows(b, a);
      TextReverse(TextIn(a), TextIn(b));
    }
  }

  // ----- columns without nulls -----

  /** Three values: where text lies between or outside integers. */
  lemma ScalarTransitive(xs: Column, a: Option<Json>, b: Option<Json>, c: Option<Json>)
    requires Interleaved(xs) && a in xs && b in xs && c in xs && Scalar(a) && Scalar(b) && Scalar(c)
    requires CompareRows(a, b) != Greater && CompareRows(b, c) != Greater
    ensures CompareRows(a, c) != Greater
  {
    ScalarRows(a, b);
    ScalarRows(b, c);
    ScalarRows(a, c);
    var s, t, u := TextIn(a), TextIn(b), TextIn(c);
    TextReverse(s, u);
    TextReverse(s, t);
    TextReverse(t, u);
    if IsInteger(a) && IsInteger(b) && !IsInteger(c) {
      OtherText(a, c);
      OtherText(b, c);
      assert CompareText(s, u) == Greater ==> Between(b, c, a);
    } else if !IsInteger(a) && IsInteger(b) && IsInteger(c) {
      OtherText(b, a);
      OtherText(c, a);
      assert CompareText(s, u) == Greater ==> Between(c, a, b);
    } else if IsInteger(a) && !IsInteger(b) && IsInteger(c) {
      OtherText(a, b);
      OtherText(c, b);
      assert Between(a, b, c);
    } else if !(IsInteger(a) && IsInteger(b) && IsInteger(c)) {
      TextTransitive(s, t, u);
    }
  }

  lemma InterleavedNeeded(xs: Column, i: Option<Json>, t: Option<Json>, j: Option<Json>)
    requires Transitive(xs) && i in xs && t in xs && j in xs && Between(i, t, j)
    ensures NumberOf(i) < NumberOf(j)
  {
    ScalarRows(i, t);
    ScalarRows(t, j);
    ScalarRows(j, i);
    ScalarRows(j, t);
    TextReverse(TextIn(t), TextIn(j));
    assert CompareRows(j, i) != Greater && CompareRows(i, t) != Greater ==> CompareRows(j, t) != Greater;
  }

  // ----- the condition -----

  /** What a column has to be for its comparison to be an order: with an explicit null, which equals every
      value, a single value; otherwise integers and other texts that do not contradict each other. */
  ghost predicate Orderly(xs: Column) {
    if exists x :: x in xs && Nothing(x) then OneValue(xs) else Interleaved(xs)
  }

  lemma OneValueEqual(xs: Column, a: Option<Json>, b: Option<Json>)
    requires OneValue(xs) && a in xs && b in xs && a.Some? && b.Some?
    requires (Scalar(a) || Nothing(a)) && (Scalar(b) || Nothing(b))
    ensures CompareRows(a, b) == Equal
  {
    if Scalar(a) && Scalar(b) {
      ScalarRows(a, b);
      TextEqual(TextIn(a), TextIn(b));
    }
  }

  lemma OneValueNeeded(xs: Column, x: Option<Json>, a: Option<Json>, b: Option<Json>)
    requires Transitive(xs) && x in xs && Nothing(x) && a in xs && b in xs && Scalar(a) && Scalar(b)
    ensures if IsInteger(a) && IsInteger(b) then NumberOf(a) == NumberOf(b) else TextIn(a) == TextIn(b)
  {
    assert CompareRows(a, x) == Equal && CompareRows(x, b) == Equal;
    assert CompareRows(b, x) == Equal && CompareRows(x, a) == Equal;
    assert CompareRows(a, b) != Greater && CompareRows(b, a) != Greater;
    ScalarRows(a, b);
    ScalarRows(b, a);
    TextReverse(TextIn(a), TextIn(b));
    TextEqual(TextIn(a), TextIn(b));
  }

  /** The comparison of a column is an order exactly when the column is orderly. */
  lemma ColumnExact(xs: Column)
    requires PlainColumn(xs)
    ensures Transitive(xs) <==> Orderly(xs)
  {
    if Transitive(xs) { OrderlyNeeded(xs); }
    if Orderly(xs) {
      forall a, b, c | a in xs && b in xs && c in xs && CompareRows(a, b) != Greater && CompareRows(b, c) != Greater
        ensures CompareRows(a, c) != Greater
      {
        OrderlyTransitive(xs, a, b, c);
      }
    }
  }

  lemma OrderlyNeeded(xs: Column)
    requires Transitive(xs)
    ensures Orderly(xs)
  {
    if x :| x in xs && Nothing(x) { NullNeedsOne(xs, x); } else { OthersNeedOrder(xs); }
  }

  lemma NullNeedsOne(xs: Column, x: Option<Json>)
    requires Transitive(xs) && x in xs && Nothing(x)
    ensures OneValue(xs)
  {
    forall a, b | a in xs && b in xs && Scalar(a) && Scalar(b)
      ensures if IsInteger(a) && IsInteger(b) then NumberOf(a) == NumberOf(b) else TextIn(a) == TextIn(b)
    {
      OneValueNeeded(xs, x, a, b);
    }
  }

  lemma OthersNeedOrder(xs: Column)
    requires Transitive(xs)
    ensures Interleaved(xs)
  {
    forall i, t, j | i in xs && t in xs && j in xs && Between(i, t, j) ensures NumberOf(i) < NumberOf(j) {
      InterleavedNeeded(xs, i, t, j);
    }
  }

  lemma OrderlyTransitive(xs: Column, a: Option<Json>, b: Option<Json>, c: Option<Json>)
    requires PlainColumn(xs) && Orderly(xs) && a in xs && b in xs && c in xs
    requires CompareRows(a, b) != Greater && CompareRows(b, c) != Greater
    ensures CompareRows(a, c) != Greater
  {
    if a.Some? && c.Some? {
      if exists x :: x in xs && Nothing(x) {
        OneValueEqual(xs, a, c);
      } else {
        ScalarTransitive(xs, a, b, c);
      }
    }
  }

  // ----- what sorting by it gives -----

  /** Later rows do not come before earlier ones. */
  ghost predicate InOrder<E>(xs: seq<E>, order: (E, E) -> Ordering) {
    forall i, j :: 0 <= i < j < |xs| ==> order(xs[i], xs[j]) != Greater
  }

  /** The comparison is an order of these elements. */
  ghost predicate Preorder<E(!new)>(order: (E, E) -> Ordering, all: seq<E>) {
    && (forall a, b :: a in all && b in all ==> order(b, a) == Reverse(order(a, b)))
    && (forall a, b, c :: a in all && b in all && c in all && order(a, b) != Greater && order(b, c) != Greater ==>
          order(a, c) != Greater)
  }

  lemma {:induction false} InsertInOrder<E(!new)>(x: E, xs: seq<E>, order: (E, E) -> Ordering, all: seq<E>)
    requires Preorder(order, all) && x in all && (forall y :: y in xs ==> y in all) && InOrder(xs, order)
    ensures InOrder(Insert(x, xs, order), order)
  {
    if xs != [] {
      assert xs[0] in xs;
      if order(x, xs[0]) == Greater {
        var t := xs[1..];
        assert xs == [xs[0]] + t;
        InsertInOrder(x, t, order, all);
        InsertKeeps(x, t, order);
        HeadFirst(xs[0], x, xs, Insert(x, t, order), order, all);
      } else {
        forall j | 0 <= j < |xs| ensures order(x, xs[j]) != Greater { assert xs[j] in xs; }
      }
    }
  }

  lemma HeadFirst<E(!new)>(least: E, x: E, xs: seq<E>, r: seq<E>, order: (E, E) -> Ordering, all: seq<E>)
    requires xs != [] && least == xs[0] && InOrder(xs, order) && order(least, x) != Greater && InOrder(r, order)
    requires multiset(r) == multiset(xs[1..]) + multiset{x}
    ensures InOrder([least] + r, order)
  {
    forall j | 0 <= j < |r| ensures order(least, r[j]) != Greater {
      assert r[j] in multiset(r);
      if r[j] != x {
        assert r[j] in xs[1..];
        var k :| 0 <= k < |xs[1..]| && xs[1..][k] == r[j];
        assert xs[k + 1] == r[j];
      }
    }
  }

  /** A stable sort by an order puts the elements in order, each once. */
  lemma {:induction false} SortInOrder<E(!new)>(xs: seq<E>, order: (E, E) -> Ordering, all: seq<E>)
    requires Preorder(order, all) && forall y :: y in xs ==> y in all
    ensures InOrder(StableSort(xs, order), order) && multiset(StableSort(xs, order)) == multiset(xs)
  {
    if xs != [] {
      var t := xs[1..];
      assert xs == [xs[0]] + t;
      SortInOrder(t, order, all);
      var s := StableSort(t, order);
      forall y | y in s ensures y in all { assert y in multiset(s) && y in t; }
      InsertInOrder(xs[0], s, order, all);
      InsertKeeps(xs[0], s, order);
    }
  }

  function ColumnOf<E>(rows: seq<E>, field: E -> Option<Json>): Column {
    seq(|rows|, i requires 0 <= i < |rows| => field(rows[i]))
  }

  lemma ColumnPreorder<E(!new)>(rows: seq<E>, field: E -> Option<Json>, desc: bool)
    requires PlainColumn(ColumnOf(rows, field)) && Orderly(ColumnOf(rows, field))
    ensures Preorder(RowOrder(field, desc), rows)
  {
    var xs, order := ColumnOf(rows, field), RowOrder(field, desc);
    ColumnExact(xs);
    forall e | e in rows ensures field(e) in xs {
      var k :| 0 <= k < |rows| && rows[k] == e;
      assert xs[k] == field(e);
    }
    forall a, b | a in rows && b in rows
      ensures order(b, a) == Reverse(order(a, b))
    {
      RowsReverse(field(a), field(b));
    }
    forall a, b, c | a in rows && b in rows && c in rows && order(a, b) != Greater && order(b, c) != Greater
      ensures order(a, c) != Greater
    {
      RowsReverse(field(a), field(b));
      RowsReverse(field(b), field(c));
      RowsReverse(field(a), field(c));
    }
  }

  /** So a page of a query over an orderly column is in order: of its rows, no later one comes first. */
  lemma OrderlyPage<E(!new)>(rows: seq<E>, field: E -> Option<Json>, desc: bool, skip: Option<nat>, first: Option<nat>)
    requires PlainColumn(ColumnOf(rows, field)) && Orderly(ColumnOf(rows, field))
    ensures InOrder(ApplyEntityArgs(rows, field, desc, skip, first), RowOrder(field, desc))
  {
    ColumnPreorder(rows, field, desc);
    SortInOrder(rows, RowOrder(field, desc), rows);
  }

  /** In dictionary order the first text is not after the second: up to some place they are the same, and there the
      first ends or has the smaller character. */
  ghost predicate Dictionary(s: string, t: string) {
    exists k: nat :: DecidedAt(s, t, k)
  }

  ghost predicate DecidedAt(s: string, t: string, k: nat) {
    k <= |s| && k <= |t| && (forall i :: 0 <= i < k ==> s[i] == t[i]) && (k == |s| || (k < |t| && s[k] < t[k]))
  }

  lemma DecidedLater(s: string, t: string, k: nat)
    requires s != "" && t != "" && s[0] == t[0]
    ensures DecidedAt(s, t, k + 1) <==> DecidedAt(s[1..], t[1..], k)
  {
    var u, v := s[1..], t[1..];
    if DecidedAt(u, v, k) {
      forall i | 0 <= i < k + 1 ensures s[i] == t[i] { if i > 0 { assert u[i - 1] == v[i - 1]; } }
    }
    if DecidedAt(s, t, k + 1) {
      forall i | 0 <= i < k ensures u[i] == v[i] { assert s[i + 1] == t[i + 1]; }
    }
  }

  lemma {:induction false} TextMeaning(s: string, t: string)
    ensures CompareText(s, t) != Greater <==> Dictionary(s, t)
  {
    if s == "" {
      assert DecidedAt(s, t, 0);
    } else if t != "" && s[0] == t[0] {
      var u, v := s[1..], t[1..];
      TextMeaning(u, v);
      if Dictionary(u, v) {
        var k: nat :| DecidedAt(u, v, k);
        DecidedLater(s, t, k);
      }
      if Dictionary(s, t) {
        var k: nat :| DecidedAt(s, t, k);
        DecidedLater(s, t, k - 1);
      }
    } else {
      assert DecidedAt(s, t, 0) <==> t != "" && s[0] < t[0];
      forall k: nat | k > 0 ensures !DecidedAt(s, t, k) { }
    }
  }

  /** Ascending, a row may come before another one: a missing field before any value, false before true, smaller
      integers before larger ones, and texts of which one is no integer in dictionary order. */
  ghost predicate MayPrecede(a: Option<Json>, b: Option<Json>) {
    && (b.None? ==> a.None?)
    && (a.Some? && a.value.JBool? && b.Some? && b.value.JBool? ==> a.value.on ==> b.value.on)
    && (IsInteger(a) && IsInteger(b) ==> NumberOf(a) <= NumberOf(b))
    && (a.Some? && a.value.JString? && b.Some? && b.value.JString? && (!IsInteger(a) || !IsInteger(b))
        ==> Dictionary(a.value.text, b.value.text))
  }

  lemma NotGreater(a: Option<Json>, b: Option<Json>)
    requires CompareRows(a, b) != Greater
    ensures MayPrecede(a, b)
  {
    if a.Some? && b.Some? {
      if IsInteger(a) && IsInteger(b) { IntegerRows(a, b); }
      if a.value.JString? && b.value.JString? { TextMeaning(a.value.text, b.value.text); }
      if a.value.JBool? && b.value.JBool? { TextMeaning("true", "false"); }
    }
  }

  lemma PageRow<E(!new)>(rows: seq<E>, field: E -> Option<Json>, desc: bool, skip: Option<nat>, first: Option<nat>,
                         i: nat)
    requires PlainColumn(ColumnOf(rows, field)) && i < |ApplyEntityArgs(rows, field, desc, skip, first)|
    ensures var a := field(ApplyEntityArgs(rows, field, desc, skip, first)[i]); a.None? || Scalar(a) || Nothing(a)
  {
    var sorted, e := StableSort(rows, RowOrder(field, desc)), ApplyEntityArgs(rows, field, desc, skip, first)[i];
    SortKeeps(rows, RowOrder(field, desc));
    assert e in sorted;
    assert e in multiset(sorted);
    var k :| 0 <= k < |rows| && rows[k] == e;
    assert ColumnOf(rows, field)[k] == field(e);
  }

  lemma {:induction false} SortKeeps<E>(xs: seq<E>, order: (E, E) -> Ordering)
    ensures multiset(StableSort(xs, order)) == multiset(xs)
  {
    if xs != [] {
      assert xs == [xs[0]] + xs[1..];
      SortKeeps(xs[1..], order);
      InsertKeeps(xs[0], StableSort(xs[1..], order), order);
    }
  }

  /** What that means for two rows of a page over an orderly column. */
  lemma PageRows<E(!new)>(rows: seq<E>, field: E -> Option<Json>, desc: bool, skip: Option<nat>, first: Option<nat>,
                          i: nat, j: nat)
    requires PlainColumn(ColumnOf(rows, field)) && Orderly(ColumnOf(rows, field))
    requires i < j < |ApplyEntityArgs(rows, field, desc, skip, first)|
    ensures var page := ApplyEntityArgs(rows, field, desc, skip, first);
            if desc then MayPrecede(field(page[j]), field(page[i])) else MayPrecede(field(page[i]), field(page[j]))
  {
    var page := ApplyEntityArgs(rows, field, desc, skip, first);
    OrderlyPage(rows, field, desc, skip, first);
    var a, b := field(page[i]), field(page[j]);
    assert RowOrder(field, desc)(page[i], page[j]) != Greater;
    if desc {
      PageRow(rows, field, desc, skip, first, i);
      PageRow(rows, field, desc, skip, first, j);
      RowsReverse(a, b);
      NotGreater(b, a);
    } else {
      NotGreater(a, b);
    }
  }

  /** A query that asks for no page gets the first hundred rows. */
  lemma DefaultPage<E>(rows: seq<E>, field: E -> Option<Json>, desc: bool)
    ensures var page := ApplyEntityArgs(rows, field, desc, None, None);
            && |page| == (if |rows| < 100 then |rows| else 100)
            && page == Pages(rows, field, desc, 100, 1)
  {
    SortLength(rows, RowOrder(field, desc));
    assert Pages(rows, field, desc, 100, 0) == [];
  }

  /** A stable sort of the rows by rank. */
  ghost predicate StablySorted<E(!new)>(sorted: seq<E>, rows: seq<E>, rank: E -> int) {
    && SortedBy(sorted, rank) && multiset(sorted) == multiset(rows)
    && forall r: int :: Having(sorted, rank, r) == Having(rows, rank, r)
  }

  lemma PartSorted<E(!new)>(sorted: seq<E>, rank: E -> int, from: nat, count: nat)
    requires SortedBy(sorted, rank)
    ensures SortedBy(Take(Skip(sorted, from), count), rank)
  {
  }

  /** Over a column of integers a page is in number order, and is the part asked for of a stable sort. */
  lemma IntegerPageSorted<E(!new)>(rows: seq<E>, field: E -> Option<Json>, desc: bool, skip: Option<nat>,
                                   first: Option<nat>)
    returns (sorted: seq<E>)
    requires forall e :: e in rows ==> IsInteger(field(e))
    ensures StablySorted(sorted, rows, RankOf(field, desc))
    ensures var page := ApplyEntityArgs(rows, field, desc, skip, first);
            && SortedBy(page, RankOf(field, desc))
            && page
               == Take(Skip(sorted, if skip.Some? then skip.value else 0), if first.Some? then first.value else 100)
  {
    IntegerColumnSorted(rows, field, desc);
    sorted := StableSort(rows, RowOrder(field, desc));
    PartSorted(sorted, RankOf(field, desc), if skip.Some? then skip.value else 0,
               if first.Some? then first.value else 100);
  }

  // ----- decimals -----

  /** A decimal without superfluous zeros: a whole part, and a fraction that is empty or does not end in zero. */
  datatype Plain = Plain(whole: string, fraction: string)

  predicate Proper(p: Plain) {
    PlainDigits(p.whole) && AllDigits(p.whole) && AllDigits(p.fraction)
    && (p.fraction != "" ==> p.fraction[|p.fraction| - 1] != '0')
  }

  function Tail(p: Plain): string {
    if p.fraction == "" then "" else "." + p.fraction
  }

  function TextOfPlain(p: Plain): string {
    p.whole + Tail(p)
  }

  /** The decimal times ten to the number of its fractional digits. */
  function Coefficient(p: Plain): nat
    requires Proper(p)
  {
    assert AllDigits(p.whole + p.fraction);
    NatValue(p.whole + p.fraction)
  }

  /** The order of the numbers, over a common denominator. */
  function NumberOrder(p: Plain, q: Plain): Ordering
    requires Proper(p) && Proper(q)
  {
    Compare(Shift(Coefficient(p), |q.fraction|), Shift(Coefficient(q), |p.fraction|))
  }

  lemma {:induction false} Digits(a: string, b: string)
    requires AllDigits(a) && AllDigits(b)
    ensures AllDigits(a + b) && NatValue(a + b) == Shift(NatValue(a), |b|) + NatValue(b)
    decreases |b|
  {
    if b == "" {
      assert a + b == a;
    } else {
      var n := |b| - 1;
      var c := b[..n];
      assert forall x :: x in c ==> x in b;
      assert b[n] in b;
      Digits(a, c);
      assert (a + b)[..|a + b| - 1] == a + c && (a + b)[|a + b| - 1] == b[n];
      assert NatValue(a + b) == 10 * NatValue(a + c) + DigitValue(b[n]);
      assert NatValue(b) == 10 * NatValue(c) + DigitValue(b[n]);
      assert Shift(NatValue(a), |b|) == 10 * Shift(NatValue(a), n);
    }
  }

  /** A fraction that does not end in zero is not zero. */
  lemma FractionPositive(b: string)
    requires AllDigits(b) && b != "" && b[|b| - 1] != '0'
    ensures NatValue(b) > 0
  {
    assert b[|b| - 1] in b;
  }

  /** Fractions are ordered as text. */
  lemma {:induction false} FractionOrder(b: string, d: string)
    requires AllDigits(b) && AllDigits(d) && (b != "" ==> b[|b| - 1] != '0') && (d != "" ==> d[|d| - 1] != '0')
    ensures Compare(Shift(NatValue(b), |d|), Shift(NatValue(d), |b|)) == CompareText(b, d)
    decreases b
  {
    if b == "" || d == "" {
      ShiftZero(|b| + |d|);
      if d != "" { FractionPositive(d); }
      if b != "" { FractionPositive(b); }
    } else {
      var t, u, x, y := b[1..], d[1..], DigitOf(b), DigitOf(d);
      var sum := |t| + |d|;
      LeadForm(b, t, |d|, sum);
      LeadForm(d, u, |b|, sum);
      TailsBelow(t, u, sum, |d|, |b|);
      LeadOrRest(x, y, sum, Shift(NatValue(t), |d|), Shift(NatValue(u), |b|));
      TailsCompare(t, u, |d|, |b|);
      FractionOrder(t, u);
    }
  }

  /** The leading digit decides, and the rest if the leading digits are equal. */
  lemma LeadOrRest(x: nat, y: nat, n: nat, r: nat, q: nat)
    requires r < Pow10(n) && q < Pow10(n)
    ensures Compare(Shift(x, n) + r, Shift(y, n) + q)
            == if x < y then Less else if y < x then Greater else Compare(r, q)
  {
    if x < y {
      LeadDecides(x, y, n);
    } else if y < x {
      LeadDecides(y, x, n);
    }
  }

  function DigitOf(s: string): nat
    requires AllDigits(s) && s != ""
  {
    assert s[0] in s;
    DigitValue(s[0])
  }

  lemma ShiftedSum(v: nat, x: nat, n: nat, m: nat, sum: nat)
    requires sum == n + m
    ensures Shift(Shift(x, n) + v, m) == Shift(x, sum) + Shift(v, m)
  {
    ShiftAdd(Shift(x, n), v, m);
    ShiftShift(x, n, m);
  }

  lemma TailsBelow(t: string, u: string, sum: nat, m: nat, k: nat)
    requires AllDigits(t) && AllDigits(u) && sum == |t| + m == |u| + k
    ensures 0 <= Shift(NatValue(t), m) < Pow10(sum) && 0 <= Shift(NatValue(u), k) < Pow10(sum)
  {
    DigitsBound(t);
    DigitsBound(u);
    ShiftMono(NatValue(t), Pow10(|t|), m);
    ShiftMono(NatValue(u), Pow10(|u|), k);
    ShiftMono(0, NatValue(t), m);
    ShiftMono(0, NatValue(u), k);
    ShiftZero(m);
    ShiftZero(k);
    ShiftShift(1, |t|, m);
    ShiftShift(1, |u|, k);
  }

  /** The leading digit, and the rest below it. */
  lemma LeadForm(b: string, t: string, m: nat, sum: nat)
    requires AllDigits(b) && b != "" && t == b[1..] && sum == |t| + m
    ensures AllDigits(t) && Shift(NatValue(b), m) == Shift(DigitOf(b), sum) + Shift(NatValue(t), m)
  {
    TailDigits(b);
    assert b[0] in b;
    FirstDigit(b[0], t);
    ShiftedSum(NatValue(t), DigitOf(b), |t|, m, sum);
  }

  /** One more place on both sides does not matter. */
  lemma TailsCompare(t: string, u: string, m: nat, k: nat)
    requires AllDigits(t) && AllDigits(u) && m == |u| + 1 && k == |t| + 1
    ensures Compare(Shift(NatValue(t), m), Shift(NatValue(u), k))
            == Compare(Shift(NatValue(t), |u|), Shift(NatValue(u), |t|))
  {
    assert Shift(NatValue(t), m) == 10 * Shift(NatValue(t), |u|);
    assert Shift(NatValue(u), k) == 10 * Shift(NatValue(u), |t|);
  }

  /** Numbers: the whole parts decide, and the fractions if those are equal. */
  lemma NumbersBySize(p: Plain, q: Plain)
    requires Proper(p) && Proper(q)
    ensures NumberOrder(p, q)
            == if p.whole == q.whole then CompareText(p.fraction, q.fraction) else CompareUnsigned(p.whole, q.whole)
  {
    var a, b, c, d := p.whole, p.fraction, q.whole, q.fraction;
    var sum := |b| + |d|;
    CommonForm(p, |d|, sum);
    CommonForm(q, |b|, sum);
    TailsBelow(b, d, sum, |d|, |b|);
    FractionOrder(b, d);
    UnsignedIsNumber(a, c);
    WholeEqual(a, c);
    LeadOrRest(NatValue(a), NatValue(c), sum, Shift(NatValue(b), |d|), Shift(NatValue(d), |b|));
  }

  /** Over a common denominator: the whole part, and the fraction below it. */
  lemma CommonForm(p: Plain, m: nat, sum: nat)
    requires Proper(p) && sum == |p.fraction| + m
    ensures Shift(Coefficient(p), m) == Shift(NatValue(p.whole), sum) + Shift(NatValue(p.fraction), m)
  {
    Digits(p.whole, p.fraction);
    ShiftedSum(NatValue(p.fraction), NatValue(p.whole), |p.fraction|, m, sum);
  }

  lemma WholeEqual(a: string, c: string)
    ensures CompareUnsigned(a, c) == Equal <==> a == c
  {
    TextEqual(a, c);
  }

  /** Texts: the whole parts decide, the shorter one first if it begins the other. */
  lemma {:induction false} TextsBySize(a: string, t: string, c: string, u: string)
    requires AllDigits(a) && AllDigits(c) && (t == "" || t[0] == '.') && (u == "" || u[0] == '.')
    ensures CompareText(a + t, c + u) == if a == c then CompareText(t, u) else CompareText(a, c)
    decreases a
  {
    if a == "" {
      assert a + t == t;
      if c == "" { assert c + u == u; } else { assert c[0] in c && (c + u)[0] == c[0]; }
    } else if c == "" {
      assert c + u == u && a[0] in a && (a + t)[0] == a[0];
    } else {
      TailDigits(a);
      TailDigits(c);
      assert (a + t)[1..] == a[1..] + t && (c + u)[1..] == c[1..] + u;
      TextsBySize(a[1..], t, c[1..], u);
    }
  }

  lemma TailDigits(a: string)
    requires AllDigits(a) && a != ""
    ensures AllDigits(a[1..]) && a == [a[0]] + a[1..]
  {
    assert forall x :: x in a[1..] ==> x in a;
  }

  lemma TailOrder(p: Plain, q: Plain)
    ensures CompareText(Tail(p), Tail(q)) == CompareText(p.fraction, q.fraction)
  {
    assert p.fraction != "" ==> Tail(p)[1..] == p.fraction;
    assert q.fraction != "" ==> Tail(q)[1..] == q.fraction;
  }

  lemma PlainTexts(p: Plain, q: Plain)
    requires Proper(p) && Proper(q)
    ensures CompareText(TextOfPlain(p), TextOfPlain(q))
         == if p.whole == q.whole then CompareText(p.fraction, q.fraction) else CompareText(p.whole, q.whole)
  {
    TextsBySize(p.whole, Tail(p), q.whole, Tail(q));
    TailOrder(p, q);
  }

  /** The texts are in the order of the numbers exactly when the whole parts, as text, are. */
  lemma TextOrderExact(p: Plain, q: Plain)
    requires Proper(p) && Proper(q)
    ensures CompareText(TextOfPlain(p), TextOfPlain(q)) == NumberOrder(p, q)
            <==> CompareText(p.whole, q.whole) == CompareUnsigned(p.whole, q.whole)
  {
    PlainTexts(p, q);
    NumbersBySize(p, q);
    TextEqual(p.whole, q.whole);
    WholeEqual(p.whole, q.whole);
  }

  /** Texts that are not both integers are compared as text. */
  lemma TextRows(s: string, t: string)
    requires !IsDecimal(s) || !IsDecimal(t)
    ensures CompareRows(Some(JString(s)), Some(JString(t))) == CompareText(s, t)
  {
  }

  /** A fraction's point makes the text no integer. */
  lemma PointText(p: Plain, text: string)
    requires p.fraction != "" && text == TextOfPlain(p)
    ensures !AllDigits(text)
  {
    assert text[|p.whole|] == '.' && text[|p.whole|] in text;
  }

  lemma PlainStart(p: Plain, text: string)
    requires Proper(p) && text == TextOfPlain(p)
    ensures text != "" && IsDigit(text[0]) && (p.fraction != "" ==> !IsDecimal(text))
  {
    assert p.whole[0] in p.whole && text[0] == p.whole[0];
    if p.fraction != "" { PointText(p, text); }
  }

  lemma NegativeText(p: Plain, text: string, s: string)
    requires Proper(p) && text == TextOfPlain(p) && s == "-" + text
    ensures p.fraction != "" ==> !IsDecimal(s)
  {
    assert s[1..] == text;
    if p.fraction != "" { PointText(p, text); }
  }

  lemma SignSkipped(s: string, t: string)
    ensures CompareText("-" + s, "-" + t) == CompareText(s, t)
  {
    assert ("-" + s)[1..] == s && ("-" + t)[1..] == t;
  }

  /** Two rows of decimals, not both whole: a query puts them in the order of their numbers exactly when their
      whole parts, as text, are in number order; so 9.5 and 10.5 are not. */
  lemma DecimalRowsExact(p: Plain, q: Plain, s: string, t: string)
    requires Proper(p) && Proper(q) && (p.fraction != "" || q.fraction != "")
    requires s == TextOfPlain(p) && t == TextOfPlain(q)
    ensures CompareRows(Some(JString(s)), Some(JString(t))) == NumberOrder(p, q)
            <==> CompareText(p.whole, q.whole) == CompareUnsigned(p.whole, q.whole)
  {
    PlainStart(p, s);
    PlainStart(q, t);
    TextRows(s, t);
    TextOrderExact(p, q);
  }

  /** Negative decimals, not both whole, come in the order of their numbers exactly when they are equal, or
      their whole parts, as text, are not in number order. */
  lemma NegativeRowsExact(p: Plain, q: Plain, s: string, t: string)
    requires Proper(p) && Proper(q) && (p.fraction != "" || q.fraction != "")
    requires s == "-" + TextOfPlain(p) && t == "-" + TextOfPlain(q)
    ensures CompareRows(Some(JString(s)), Some(JString(t))) == Reverse(NumberOrder(p, q))
            <==> p == q || CompareText(p.whole, q.whole) != CompareUnsigned(p.whole, q.whole)
  {
    NegativeText(p, TextOfPlain(p), s);
    NegativeText(q, TextOfPlain(q), t);
    TextRows(s, t);
    SignSkipped(TextOfPlain(p), TextOfPlain(q));
    NegativeOrders(p, q, CompareText(TextOfPlain(p), TextOfPlain(q)));
  }

  lemma NegativeOrders(p: Plain, q: Plain, text: Ordering)
    requires Proper(p) && Proper(q) && text == CompareText(TextOfPlain(p), TextOfPlain(q))
    ensures text == Reverse(NumberOrder(p, q))
            <==> p == q || CompareText(p.whole, q.whole) != CompareUnsigned(p.whole, q.whole)
  {
    PlainTexts(p, q);
    NumbersBySize(p, q);
    TextEqual(p.whole, q.whole);
    TextEqual(p.fraction, q.fraction);
    WholeEqual(p.whole, q.whole);
  }

  /** A negative decimal comes before one that is not negative. */
  lemma SignsDecide(p: Plain, q: Plain, s: string, t: string)
    requires Proper(p) && Proper(q) && (p.fraction != "" || q.fraction != "")
    requires s == "-" + TextOfPlain(p) && t == TextOfPlain(q)
    ensures CompareRows(Some(JString(s)), Some(JString(t))) == Less
  {
    NegativeText(p, TextOfPlain(p), s);
    PlainStart(q, t);
    TextRows(s, t);
  }
}
