/**
 * The two date-range queries of the almanax store as relational operations:
 * an inner join of almanax with bonus, bonus_types and tribute, a WHERE filter
 * and ORDER BY a.date ASC, followed by the scan of each row into a `MappedAlmanax`.
 */
module Sql {
  import opened Wrappers
  import opened Types
  import opened Collation

  /** The four tables, in row order. */
  datatype Tables = Tables(almanax: seq<Almanax>, bonus: seq<Bonus>, bonusTypes: seq<BonusType>, tribute: seq<Tribute>)

  /** One row of the joined query, as stored (all columns of the four records). */
  datatype Row = Row(almanax: Almanax, bonus: Bonus, bonusType: BonusType, tribute: Tribute)

  /** No two rows of a table share an id: `id` is each table's primary key. */
  ghost predicate UniqueIds(t: Tables) {
    && (forall i, j :: 0 <= i < j < |t.almanax| ==> t.almanax[i].id != t.almanax[j].id)
    && (forall i, j :: 0 <= i < j < |t.bonus| ==> t.bonus[i].id != t.bonus[j].id)
    && (forall i, j :: 0 <= i < j < |t.bonusTypes| ==> t.bonusTypes[i].id != t.bonusTypes[j].id)
    && (forall i, j :: 0 <= i < j < |t.tribute| ==> t.tribute[i].id != t.tribute[j].id)
  }

  /** The row of `s` whose key is `k`, the first one if several are. */
  function Find<T>(s: seq<T>, key: T -> int, k: int): (r: Option<T>)
    ensures r.Some? ==> r.value in s && key(r.value) == k
    ensures r.None? ==> forall x :: x in s ==> key(x) != k
    decreases |s|
  {
    if s == [] then None
    else if key(s[0]) == k then Some(s[0])
    else Find(s[1..], key, k)
  }

  /** With unique keys the row found is the only one carrying the key. */
  lemma {:induction false} FindUnique<T>(s: seq<T>, key: T -> int, x: T)
    requires forall i, j :: 0 <= i < j < |s| ==> key(s[i]) != key(s[j])
    requires x in s
    ensures Find(s, key, key(x)) == Some(x)
    decreases |s|
  {
    if s[0] != x {
      var rest := s[1..];
      forall i, j | 0 <= i < j < |rest| ensures key(rest[i]) != key(rest[j]) {
        assert rest[i] == s[i + 1] && rest[j] == s[j + 1];
      }
      var n :| 0 <= n < |s| && s[n] == x;
      assert key(s[0]) != key(s[n]);
      assert rest[n - 1] == x;
      FindUnique(rest, key, x);
    }
  }

  /** The joined row of one almanax row, if all three references resolve. */
  function JoinRow(t: Tables, a: Almanax): (r: Option<Row>)
    ensures r.Some? ==>
      && r.value.almanax == a
      && r.value.bonus in t.bonus && r.value.bonusType in t.bonusTypes && r.value.tribute in t.tribute
      && r.value.bonus.id == a.bonusId && r.value.bonusType.id == r.value.bonus.bonusTypeId && r.value.tribute.id == a.tributeId
  {
    match Find(t.bonus, (b: Bonus) => b.id, a.bonusId)
    case None => None
    case Some(b) =>
      match Find(t.bonusTypes, (bt: BonusType) => bt.id, b.bonusTypeId)
      case None => None
      case Some(bt) =>
        match Find(t.tribute, (tr: Tribute) => tr.id, a.tributeId)
        case None => None
        case Some(tr) => Some(Row(a, b, bt, tr))
  }

  /** The inner join over the almanax rows `rows`, in their order. */
  function JoinAll(t: Tables, rows: seq<Almanax>): (r: seq<Row>)
    ensures |r| <= |rows|
    ensures forall x :: x in r ==> x.almanax in rows && JoinRow(t, x.almanax) == Some(x)
    decreases |rows|
  {
    if rows == [] then []
    else (match JoinRow(t, rows[0]) case Some(r) => [r] case None => []) + JoinAll(t, rows[1..])
  }

  function Join(t: Tables): (r: seq<Row>)
    ensures |r| <= |t.almanax|
  {
    JoinAll(t, t.almanax)
  }

  /** Every joined row is made of table rows whose references agree. */
  ghost predicate Consistent(t: Tables, r: Row) {
    && r.almanax in t.almanax && r.bonus in t.bonus && r.bonusType in t.bonusTypes && r.tribute in t.tribute
    && r.bonus.id == r.almanax.bonusId
    && r.bonusType.id == r.bonus.bonusTypeId
    && r.tribute.id == r.almanax.tributeId
  }

  lemma {:induction false} JoinAllMembers(t: Tables, rows: seq<Almanax>, r: Row)
    ensures r in JoinAll(t, rows) <==> r.almanax in rows && JoinRow(t, r.almanax) == Some(r)
    decreases |rows|
  {
    if rows != [] {
      JoinAllMembers(t, rows[1..], r);
      assert rows == [rows[0]] + rows[1..];
    }
  }

  /**
   * With unique ids the join holds exactly the consistent combinations: an
   * almanax row with a dangling reference yields no row, as in an inner join.
   */
  lemma JoinExact(t: Tables, r: Row)
    requires UniqueIds(t)
    ensures r in Join(t) <==> Consistent(t, r)
  {
    JoinAllMembers(t, t.almanax, r);
    if Consistent(t, r) {
      FindUnique(t.bonus, (b: Bonus) => b.id, r.bonus);
      FindUnique(t.bonusTypes, (bt: BonusType) => bt.id, r.bonusType);
      FindUnique(t.tribute, (tr: Tribute) => tr.id, r.tribute);
    }
  }

  /** The WHERE clause; `nameId` is the extra `bt.name_id = ?` of the by-name query. */
  predicate Matches(r: Row, from: string, to: string, nameId: Option<string>) {
    && StrLe(from, r.almanax.date)
    && StrLe(r.almanax.date, to)
    && r.almanax.deletedAt.None?
    && (nameId.Some? ==> r.bonusType.nameId == nameId.value)
  }

  function Where(rows: seq<Row>, from: string, to: string, nameId: Option<string>): (r: seq<Row>)
    ensures forall x :: x in r <==> x in rows && Matches(x, from, to, nameId)
    decreases |rows|
  {
    if rows == [] then []
    else
      (if Matches(rows[0], from, to, nameId) then [rows[0]] else []) + Where(rows[1..], from, to, nameId)
  }

  /** The rows ascend by almanax date. */
  ghost predicate SortedByDate(rows: seq<Row>) {
    forall i, j :: 0 <= i < j < |rows| ==> StrLe(rows[i].almanax.date, rows[j].almanax.date)
  }

  /** Places `x` before the first row whose date is not smaller, so rows of equal date keep their order. */
  function Insert(x: Row, rows: seq<Row>): (r: seq<Row>)
    ensures |r| == |rows| + 1
    decreases |rows|
  {
    if rows == [] then [x]
    else if StrLe(x.almanax.date, rows[0].almanax.date) then [x] + rows
    else [rows[0]] + Insert(x, rows[1..])
  }

  /** ORDER BY a.date ASC, taken to be stable. */
  function OrderByDate(rows: seq<Row>): (r: seq<Row>)
    ensures |r| == |rows|
    decreases |rows|
  {
    if rows == [] then [] else Insert(rows[0], OrderByDate(rows[1..]))
  }

  lemma {:induction false} InsertPermutes(x: Row, rows: seq<Row>)
    ensures multiset(Insert(x, rows)) == multiset(rows) + multiset{x}
    decreases |rows|
  {
    if rows != [] && !StrLe(x.almanax.date, rows[0].almanax.date) {
      InsertPermutes(x, rows[1..]);
      assert rows == [rows[0]] + rows[1..];
    }
  }

  lemma {:induction false} InsertSorted(x: Row, rows: seq<Row>)
    requires SortedByDate(rows)
    ensures SortedByDate(Insert(x, rows))
    decreases |rows|
  {
    if rows != [] {
      var d := x.almanax.date;
      if StrLe(d, rows[0].almanax.date) {
        forall j | 0 <= j < |rows| ensures StrLe(d, rows[j].almanax.date) {
          if j > 0 { StrLeTransitive(d, rows[0].almanax.date, rows[j].almanax.date); }
        }
      } else {
        var rest := rows[1..];
        InsertSorted(x, rest);
        InsertPermutes(x, rest);
        StrLeTotal(d, rows[0].almanax.date);
        var ins := Insert(x, rest);
        forall j | 0 <= j < |ins| ensures StrLe(rows[0].almanax.date, ins[j].almanax.date) {
          assert ins[j] in multiset(ins);
          if ins[j] != x {
            assert ins[j] in multiset(rest);
            var k :| 0 <= k < |rest| && rest[k] == ins[j];
            assert rows[k + 1] == rest[k];
          }
        }
      }
    }
  }

  lemma {:induction false} OrderByDatePermutes(rows: seq<Row>)
    ensures multiset(OrderByDate(rows)) == multiset(rows)
    decreases |rows|
  {
    if rows != [] {
      OrderByDatePermutes(rows[1..]);
      InsertPermutes(rows[0], OrderByDate(rows[1..]));
      assert rows == [rows[0]] + rows[1..];
    }
  }

  lemma {:induction false} OrderByDateSorted(rows: seq<Row>)
    ensures SortedByDate(OrderByDate(rows))
    decreases |rows|
  {
    if rows != [] {
      OrderByDateSorted(rows[1..]);
      InsertSorted(rows[0], OrderByDate(rows[1..]));
    }
  }

  /** ORDER BY yields the same rows, with each multiplicity, in ascending date order. */
  lemma OrderByDateSortsAndPermutes(rows: seq<Row>)
    ensures SortedByDate(OrderByDate(rows))
    ensures multiset(OrderByDate(rows)) == multiset(rows)
  {
    OrderByDateSorted(rows);
    OrderByDatePermutes(rows);
  }

  /** The rows a date-range query returns, before scanning. */
  function Select(t: Tables, from: string, to: string, nameId: Option<string>): (r: seq<Row>)
    ensures SortedByDate(r)
  {
    OrderByDateSorted(Where(Join(t), from, to, nameId));
    OrderByDate(Where(Join(t), from, to, nameId))
  }

  /** No two rows share an almanax id, so no almanax row comes back twice. */
  ghost predicate DistinctRows(rows: seq<Row>) {
    forall i, j :: 0 <= i < j < |rows| ==> rows[i].almanax.id != rows[j].almanax.id
  }

  lemma DistinctRowsCons(x: Row, rows: seq<Row>)
    ensures DistinctRows([x] + rows) <==> DistinctRows(rows) && forall y :: y in rows ==> y.almanax.id != x.almanax.id
  {
    var xs := [x] + rows;
    if DistinctRows(rows) && forall y :: y in rows ==> y.almanax.id != x.almanax.id {
      forall i, j | 0 <= i < j < |xs| ensures xs[i].almanax.id != xs[j].almanax.id {
        assert xs[j] == rows[j - 1];
        if i > 0 { assert xs[i] == rows[i - 1]; }
      }
    }
    if DistinctRows(xs) {
      forall i, j | 0 <= i < j < |rows| ensures rows[i].almanax.id != rows[j].almanax.id {
        assert rows[i] == xs[i + 1] && rows[j] == xs[j + 1];
      }
      forall y | y in rows ensures y.almanax.id != x.almanax.id {
        var k :| 0 <= k < |rows| && rows[k] == y;
        assert xs[0] == x && xs[k + 1] == y;
        assert xs[0].almanax.id != xs[k + 1].almanax.id;
      }
    }
  }

  /** The join yields at most one row per almanax row, so distinct almanax ids stay distinct. */
  lemma {:induction false} JoinAllDistinct(t: Tables, rows: seq<Almanax>)
    requires forall i, j :: 0 <= i < j < |rows| ==> rows[i].id != rows[j].id
    ensures DistinctRows(JoinAll(t, rows))
    decreases |rows|
  {
    if rows != [] {
      var rest := rows[1..];
      forall i, j | 0 <= i < j < |rest| ensures rest[i].id != rest[j].id {
        assert rest[i] == rows[i + 1] && rest[j] == rows[j + 1];
      }
      JoinAllDistinct(t, rest);
      match JoinRow(t, rows[0])
      case None =>
      case Some(r) =>
        assert r.almanax == rows[0] by {
          assert JoinAll(t, [rows[0]]) == [r];
          JoinAllMembers(t, [rows[0]], r);
        }
        forall y | y in JoinAll(t, rest) ensures y.almanax.id != r.almanax.id {
          JoinAllMembers(t, rest, y);
          var k :| 0 <= k < |rest| && rest[k] == y.almanax;
          assert rows[k + 1] == y.almanax;
        }
        DistinctRowsCons(r, JoinAll(t, rest));
    }
  }

  lemma {:induction false} WhereDistinct(rows: seq<Row>, from: string, to: string, nameId: Option<string>)
    requires DistinctRows(rows)
    ensures DistinctRows(Where(rows, from, to, nameId))
    decreases |rows|
  {
    if rows != [] {
      var x := rows[0];
      var rest := rows[1..];
      assert rows == [x] + rest;
      DistinctRowsCons(x, rest);
      WhereDistinct(rest, from, to, nameId);
      if Matches(x, from, to, nameId) {
        DistinctRowsCons(x, Where(rest, from, to, nameId));
      }
    }
  }

  lemma {:induction false} InsertDistinct(x: Row, rows: seq<Row>)
    requires DistinctRows(rows)
    requires forall y :: y in rows ==> y.almanax.id != x.almanax.id
    ensures DistinctRows(Insert(x, rows))
    decreases |rows|
  {
    if rows == [] {
      DistinctRowsCons(x, rows);
    } else if StrLe(x.almanax.date, rows[0].almanax.date) {
      DistinctRowsCons(x, rows);
    } else {
      var y := rows[0];
      var rest := rows[1..];
      assert rows == [y] + rest;
      DistinctRowsCons(y, rest);
      InsertDistinct(x, rest);
      InsertPermutes(x, rest);
      forall z | z in Insert(x, rest) ensures z.almanax.id != y.almanax.id {
        assert z in multiset(Insert(x, rest));
      }
      DistinctRowsCons(y, Insert(x, rest));
    }
  }

  lemma {:induction false} OrderByDateDistinct(rows: seq<Row>)
    requires DistinctRows(rows)
    ensures DistinctRows(OrderByDate(rows))
    decreases |rows|
  {
    if rows != [] {
      var x := rows[0];
      var rest := rows[1..];
      assert rows == [x] + rest;
      DistinctRowsCons(x, rest);
      OrderByDateDistinct(rest);
      OrderByDateSortsAndPermutes(rest);
      forall z | z in OrderByDate(rest) ensures z.almanax.id != x.almanax.id {
        assert z in multiset(OrderByDate(rest));
      }
      InsertDistinct(x, OrderByDate(rest));
    }
  }

  /**
   * The query result ascends by date and holds exactly the consistent joined rows
   * that are not deleted, have `from <= date <= to` and, when given, the bonus type's name_id.
   */
  lemma SelectExact(t: Tables, from: string, to: string, nameId: Option<string>)
    requires UniqueIds(t)
    ensures SortedByDate(Select(t, from, to, nameId))
    ensures forall r :: r in Select(t, from, to, nameId) <==> Consistent(t, r) && Matches(r, from, to, nameId)
    ensures forall i, j :: 0 <= i < j < |Select(t, from, to, nameId)| ==>
      Select(t, from, to, nameId)[i].almanax.id != Select(t, from, to, nameId)[j].almanax.id
  {
    var w := Where(Join(t), from, to, nameId);
    JoinAllDistinct(t, t.almanax);
    WhereDistinct(Join(t), from, to, nameId);
    OrderByDateDistinct(w);
    OrderByDateSortsAndPermutes(w);
    forall r ensures r in Select(t, from, to, nameId) <==> Consistent(t, r) && Matches(r, from, to, nameId) {
      assert r in Select(t, from, to, nameId) <==> r in multiset(Select(t, from, to, nameId));
      assert r in w <==> r in multiset(w);
      JoinExact(t, r);
    }
  }

  /** An inverted range selects nothing, which is not an error. */
  lemma SelectEmptyWhenInverted(t: Tables, from: string, to: string, nameId: Option<string>)
    requires !StrLe(from, to)
    ensures Select(t, from, to, nameId) == []
  {
    WhereEmptyWhenInverted(Join(t), from, to, nameId);
  }

  lemma {:induction false} WhereEmptyWhenInverted(rows: seq<Row>, from: string, to: string, nameId: Option<string>)
    requires !StrLe(from, to)
    ensures Where(rows, from, to, nameId) == []
    decreases |rows|
  {
    if rows != [] {
      var d := rows[0].almanax.date;
      if StrLe(from, d) && StrLe(d, to) {
        StrLeTransitive(from, d, to);
      }
      WhereEmptyWhenInverted(rows[1..], from, to, nameId);
    }
  }

  /** Keeps the rows whose bonus type carries `nameId`. */
  function WithNameId(rows: seq<Row>, nameId: string): seq<Row>
    decreases |rows|
  {
    if rows == [] then []
    else (if rows[0].bonusType.nameId == nameId then [rows[0]] else []) + WithNameId(rows[1..], nameId)
  }

  lemma WithNameIdCons(x: Row, rows: seq<Row>, nameId: string)
    ensures WithNameId([x] + rows, nameId) == (if x.bonusType.nameId == nameId then [x] else []) + WithNameId(rows, nameId)
  {
    assert ([x] + rows)[0] == x && ([x] + rows)[1..] == rows;
  }

  lemma InsertCons(x: Row, y: Row, rows: seq<Row>)
    requires !StrLe(x.almanax.date, y.almanax.date)
    ensures Insert(x, [y] + rows) == [y] + Insert(x, rows)
  {
    assert ([y] + rows)[0] == y && ([y] + rows)[1..] == rows;
  }

  lemma OrderByDateCons(x: Row, rows: seq<Row>)
    ensures OrderByDate([x] + rows) == Insert(x, OrderByDate(rows))
  {
    assert ([x] + rows)[0] == x && ([x] + rows)[1..] == rows;
  }

  lemma {:induction false} WhereThenName(rows: seq<Row>, from: string, to: string, nameId: string)
    ensures Where(rows, from, to, Some(nameId)) == WithNameId(Where(rows, from, to, None), nameId)
    decreases |rows|
  {
    if rows != [] {
      var x := rows[0];
      var rest := Where(rows[1..], from, to, None);
      WhereThenName(rows[1..], from, to, nameId);
      if Matches(x, from, to, None) {
        assert Where(rows, from, to, None) == [x] + rest;
        WithNameIdCons(x, rest, nameId);
      } else {
        assert Where(rows, from, to, None) == rest;
      }
    }
  }

  lemma {:induction false} WithNameIdSubset(rows: seq<Row>, nameId: string, z: Row)
    requires z in WithNameId(rows, nameId)
    ensures z in rows
    decreases |rows|
  {
    if z != rows[0] {
      WithNameIdSubset(rows[1..], nameId, z);
    }
  }

  lemma SortedTail(rows: seq<Row>)
    requires rows != [] && SortedByDate(rows)
    ensures SortedByDate(rows[1..])
  {
    var rest := rows[1..];
    forall i, j | 0 <= i < j < |rest| ensures StrLe(rest[i].almanax.date, rest[j].almanax.date) {
      assert rest[i] == rows[i + 1] && rest[j] == rows[j + 1];
    }
  }

  /** Inserting a row no later than the head of a sorted sequence puts it in front of any subsequence too. */
  lemma InsertFrontKept(x: Row, rows: seq<Row>, nameId: string)
    requires rows != [] && SortedByDate(rows)
    requires StrLe(x.almanax.date, rows[0].almanax.date)
    ensures Insert(x, WithNameId(rows, nameId)) == [x] + WithNameId(rows, nameId)
  {
    var kept := WithNameId(rows, nameId);
    if kept != [] {
      assert kept[0] in kept;
      WithNameIdSubset(rows, nameId, kept[0]);
      var k :| 0 <= k < |rows| && rows[k] == kept[0];
      if k > 0 { StrLeTransitive(x.almanax.date, rows[0].almanax.date, rows[k].almanax.date); }
    }
  }

  lemma {:induction false} NameCommutesInsert(x: Row, rows: seq<Row>, nameId: string)
    requires SortedByDate(rows)
    ensures WithNameId(Insert(x, rows), nameId)
         == if x.bonusType.nameId == nameId then Insert(x, WithNameId(rows, nameId)) else WithNameId(rows, nameId)
    decreases |rows|
  {
    var kept := WithNameId(rows, nameId);
    if rows == [] {
      assert Insert(x, rows) == [x] + rows;
      WithNameIdCons(x, rows, nameId);
    } else if StrLe(x.almanax.date, rows[0].almanax.date) {
      assert Insert(x, rows) == [x] + rows;
      WithNameIdCons(x, rows, nameId);
      if x.bonusType.nameId == nameId {
        InsertFrontKept(x, rows, nameId);
      }
    } else {
      var y := rows[0];
      var rest := rows[1..];
      assert rows == [y] + rest;
      SortedTail(rows);
      var inserted := Insert(x, rest);
      var keptRest := WithNameId(rest, nameId);
      var front := if y.bonusType.nameId == nameId then [y] else [];
      NameCommutesInsert(x, rest, nameId);
      InsertCons(x, y, rest);
      assert Insert(x, rows) == [y] + inserted;
      WithNameIdCons(y, inserted, nameId);
      assert WithNameId(Insert(x, rows), nameId) == front + WithNameId(inserted, nameId);
      WithNameIdCons(y, rest, nameId);
      assert kept == front + keptRest;
      if x.bonusType.nameId == nameId {
        if y.bonusType.nameId == nameId {
          InsertCons(x, y, keptRest);
          assert Insert(x, kept) == [y] + Insert(x, keptRest);
        } else {
          assert kept == keptRest;
        }
      }
    }
  }

  lemma {:induction false} NameCommutesOrder(rows: seq<Row>, nameId: string)
    ensures WithNameId(OrderByDate(rows), nameId) == OrderByDate(WithNameId(rows, nameId))
    decreases |rows|
  {
    if rows != [] {
      var x := rows[0];
      var rest := rows[1..];
      var sortedRest := OrderByDate(rest);
      assert OrderByDate(rows) == Insert(x, sortedRest);
      NameCommutesOrder(rest, nameId);
      OrderByDateSortsAndPermutes(rest);
      NameCommutesInsert(x, sortedRest, nameId);
      assert rows == [x] + rest;
      var keptRest := WithNameId(rest, nameId);
      WithNameIdCons(x, rest, nameId);
      if x.bonusType.nameId == nameId {
        assert WithNameId(rows, nameId) == [x] + keptRest;
        OrderByDateCons(x, keptRest);
        assert OrderByDate(WithNameId(rows, nameId)) == Insert(x, OrderByDate(keptRest));
      } else {
        assert WithNameId(rows, nameId) == keptRest;
      }
    }
  }

  /** The by-name query is the plain query restricted to one bonus type name, in the same order. */
  lemma ByNameIsRestriction(t: Tables, from: string, to: string, nameId: string)
    ensures Select(t, from, to, Some(nameId)) == WithNameId(Select(t, from, to, None), nameId)
  {
    WhereThenName(Join(t), from, to, nameId);
    NameCommutesOrder(Where(Join(t), from, to, None), nameId);
  }

  // ---------------------------------------------------------------------------
  // Scanning.

  /**
   * Scans the selected columns of a row: the almanax row whole, its nullable
   * deleted_at becoming an absent or present pointer; the other records without
   * their timestamps, which the query does not select and so keep Go's zero values.
   */
  function ScanRow(r: Row): (m: MappedAlmanax)
    ensures m.almanax == r.almanax
    ensures m.almanax.deletedAt.Some? <==> r.almanax.deletedAt.Some?
    ensures m.bonus.createdAt == m.bonusType.createdAt == m.tribute.createdAt == ZERO_TIME
    ensures m.bonus.updatedAt == m.bonusType.updatedAt == m.tribute.updatedAt == ZERO_TIME
    ensures m.bonus.deletedAt.None? && m.bonusType.deletedAt.None? && m.tribute.deletedAt.None?
    ensures m.bonus.(createdAt := r.bonus.createdAt, updatedAt := r.bonus.updatedAt, deletedAt := r.bonus.deletedAt) == r.bonus
    ensures m.bonusType.(createdAt := r.bonusType.createdAt, updatedAt := r.bonusType.updatedAt, deletedAt := r.bonusType.deletedAt) == r.bonusType
    ensures m.tribute.(createdAt := r.tribute.createdAt, updatedAt := r.tribute.updatedAt, deletedAt := r.tribute.deletedAt) == r.tribute
  {
    MappedAlmanax(
      r.almanax,
      r.bonus.(createdAt := ZERO_TIME, updatedAt := ZERO_TIME, deletedAt := None),
      r.bonusType.(createdAt := ZERO_TIME, updatedAt := ZERO_TIME, deletedAt := None),
      r.tribute.(createdAt := ZERO_TIME, updatedAt := ZERO_TIME, deletedAt := None))
  }

  /** What can go wrong in a query: the query itself, the scan of the row at `index`, or the iteration. */
  datatype QueryFault = NoFault | QueryFailed(message: string) | ScanFailed(index: nat, message: string) | IterationFailed(message: string)

  /** The outcome of a query over `rows` under `fault`: an error yields no partial result. */
  function Outcome(rows: seq<Row>, fault: QueryFault): (r: Result<seq<MappedAlmanax>, string>)
    ensures r.Failure? <==> fault.QueryFailed? || (fault.ScanFailed? && fault.index < |rows|) || fault.IterationFailed?
    ensures r.Success? ==> |r.value| == |rows| && forall i :: 0 <= i < |rows| ==> r.value[i].almanax == rows[i].almanax
  {
    if fault.QueryFailed? then Failure(fault.message)
    else if fault.ScanFailed? && fault.index < |rows| then Failure(fault.message)
    else if fault.IterationFailed? then Failure(fault.message)
    else Success(ScanAll(rows))
  }

  /** Every row scanned, in order. */
  function ScanAll(rows: seq<Row>): (r: seq<MappedAlmanax>)
    ensures |r| == |rows|
    ensures forall i :: 0 <= i < |rows| ==> r[i].almanax == rows[i].almanax
  {
    seq(|rows|, i requires 0 <= i < |rows| => ScanRow(rows[i]))
  }

  /** The `rows.Next()` loop shared by both queries. */
  method ScanRows(rows: seq<Row>, fault: QueryFault) returns (r: Result<seq<MappedAlmanax>, string>)
    requires !fault.QueryFailed?
    ensures r == Outcome(rows, fault)
  {
    var result: seq<MappedAlmanax> := [];
    var i := 0;
    while i < |rows|
      invariant 0 <= i <= |rows|
      invariant !(fault.ScanFailed? && fault.index < i)
      invariant |result| == i
      invariant forall k :: 0 <= k < i ==> result[k] == ScanRow(rows[k])
    {
      if fault.ScanFailed? && fault.index == i {
        return Failure(fault.message);
      }
      result := result + [ScanRow(rows[i])];
      i := i + 1;
    }
    if fault.IterationFailed? {
      return Failure(fault.message);
    }
    assert result == ScanAll(rows);
    return Success(result);
  }

  /**
   * Every row a successful query returns is not deleted, lies in the range,
   * carries the requested name_id, and joins records whose ids agree; the rows
   * ascend by date.
   */
  lemma SuccessfulQuery(t: Tables, from: string, to: string, nameId: Option<string>, fault: QueryFault)
    requires Outcome(Select(t, from, to, nameId), fault).Success?
    ensures var ms := Outcome(Select(t, from, to, nameId), fault).value;
      && |ms| == |Select(t, from, to, nameId)|
      && (forall i :: 0 <= i < |ms| ==> ms[i].almanax.deletedAt.None? && StrLe(from, ms[i].almanax.date) && StrLe(ms[i].almanax.date, to))
      && (forall i :: 0 <= i < |ms| ==> nameId.Some? ==> ms[i].bonusType.nameId == nameId.value)
      && (forall i :: 0 <= i < |ms| ==>
            ms[i].bonus.id == ms[i].almanax.bonusId && ms[i].bonusType.id == ms[i].bonus.bonusTypeId && ms[i].tribute.id == ms[i].almanax.tributeId)
      && (forall i, j :: 0 <= i < j < |ms| ==> StrLe(ms[i].almanax.date, ms[j].almanax.date))
      && (UniqueIds(t) ==> forall i, j :: 0 <= i < j < |ms| ==> ms[i].almanax.id != ms[j].almanax.id)
  {
    var rows := Select(t, from, to, nameId);
    SelectSound(t, from, to, nameId);
    if UniqueIds(t) {
      SelectExact(t, from, to, nameId);
    }
    forall i | 0 <= i < |rows| ensures Matches(rows[i], from, to, nameId) && Consistent(t, rows[i]) {
      assert rows[i] in rows;
    }
  }

  /** A joined row is made of table rows whose references agree, with or without unique ids. */
  lemma JoinSound(t: Tables, r: Row)
    requires r in Join(t)
    ensures Consistent(t, r)
  {
    JoinAllMembers(t, t.almanax, r);
  }

  /** What a query selects ascends by date and satisfies the WHERE clause and the join conditions. */
  lemma SelectSound(t: Tables, from: string, to: string, nameId: Option<string>)
    ensures SortedByDate(Select(t, from, to, nameId))
    ensures forall r :: r in Select(t, from, to, nameId) ==> Consistent(t, r) && Matches(r, from, to, nameId)
  {
    var w := Where(Join(t), from, to, nameId);
    OrderByDateSortsAndPermutes(w);
    forall r | r in Select(t, from, to, nameId) ensures Consistent(t, r) && Matches(r, from, to, nameId) {
      assert r in multiset(Select(t, from, to, nameId));
      assert r in multiset(w);
      JoinSound(t, r);
    }
  }

  /** Keeps the scanned rows whose bonus type carries `nameId`. */
  function KeepNameId(ms: seq<MappedAlmanax>, nameId: string): seq<MappedAlmanax>
    decreases |ms|
  {
    if ms == [] then []
    else (if ms[0].bonusType.nameId == nameId then [ms[0]] else []) + KeepNameId(ms[1..], nameId)
  }

  /** Scanning keeps name_id, so filtering before or after the scan is the same. */
  lemma {:induction false} ScanAllWithNameId(rows: seq<Row>, nameId: string)
    ensures ScanAll(WithNameId(rows, nameId)) == KeepNameId(ScanAll(rows), nameId)
    decreases |rows|
  {
    if rows != [] {
      var x := rows[0];
      var rest := rows[1..];
      ScanAllWithNameId(rest, nameId);
      assert ScanAll(rows)[0] == ScanRow(x);
      assert ScanAll(rows)[1..] == ScanAll(rest);
      var front := if x.bonusType.nameId == nameId then [x] else [];
      assert WithNameId(rows, nameId) == front + WithNameId(rest, nameId);
      assert ScanAll(front + WithNameId(rest, nameId)) == ScanAll(front) + ScanAll(WithNameId(rest, nameId));
    }
  }

  /**
   * Without faults, the by-name query returns the plain query's result
   * restricted to one bonus type name_id, in the same order.
   */
  lemma ByNameQueryIsRestriction(t: Tables, from: string, to: string, nameId: string)
    ensures Outcome(Select(t, from, to, Some(nameId)), NoFault)
         == Success(KeepNameId(Outcome(Select(t, from, to, None), NoFault).value, nameId))
  {
    ByNameIsRestriction(t, from, to, nameId);
    ScanAllWithNameId(Select(t, from, to, None), nameId);
  }
}
