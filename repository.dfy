/**
 * The almanax store of repository.go: four tables that the queries read and
 * that `Create`, `UpdateAlmanax` and `CreateBonusType` change in place. The
 * SQL engine is the relational model of the `Sql` module; what the database
 * reports as an error and the value of `datetime('now')` are parameters.
 */
module Repository {
  import opened Wrappers
  import opened Types
  import opened Collation
  import opened Sql

  /** The largest key among the rows, if there is a row. */
  function LargestId<T>(rows: seq<T>, key: T -> int): (r: Option<int>)
    ensures r.None? <==> rows == []
    ensures r.Some? ==> exists i :: 0 <= i < |rows| && key(rows[i]) == r.value
    ensures r.Some? ==> forall i :: 0 <= i < |rows| ==> key(rows[i]) <= r.value
    decreases |rows|
  {
    if rows == [] then None
    else
      match LargestId(rows[..|rows| - 1], key)
      case None => Some(key(rows[|rows| - 1]))
      case Some(m) => Some(if m < key(rows[|rows| - 1]) then key(rows[|rows| - 1]) else m)
  }

  /**
   * The rowid SQLite gives an inserted row when none is supplied: one more
   * than the largest in use, or 1 in an empty table.
   */
  function NextRowId<T>(rows: seq<T>, key: T -> int): (r: int)
    ensures rows == [] ==> r == 1
    ensures forall i :: 0 <= i < |rows| ==> key(rows[i]) < r
  {
    match LargestId(rows, key)
    case None => 1
    case Some(m) => m + 1
  }

  function AlmanaxId(a: Almanax): int { a.id }
  function BonusTypeId(bt: BonusType): int { bt.id }

  /** The row `INSERT INTO almanax` stores: the four given columns, both timestamps `now`, not deleted. */
  function NewAlmanaxRow(id: int, a: Almanax, now: Timestamp): Almanax {
    Almanax(id, a.bonusId, a.tributeId, a.date, a.rewardKamas, now, now, None)
  }

  /** The row `INSERT INTO bonus_types` stores: the slug and six names, both timestamps `now`, not deleted. */
  function NewBonusTypeRow(id: int, bt: BonusType, now: Timestamp): BonusType {
    BonusType(id, bt.nameId, bt.nameEn, bt.nameFr, bt.nameEs, bt.nameDe, bt.nameIt, bt.namePt, now, now, None)
  }

  /** The row `UPDATE almanax ... WHERE id = ?` leaves when it matches. */
  function UpdatedRow(row: Almanax, a: Almanax, now: Timestamp): Almanax {
    row.(bonusId := a.bonusId, tributeId := a.tributeId, date := a.date, rewardKamas := a.rewardKamas, updatedAt := now)
  }

  /** The almanax table after the UPDATE: every row whose id is `a.id` is overwritten, deleted or not. */
  function UpdateRows(rows: seq<Almanax>, a: Almanax, now: Timestamp): (r: seq<Almanax>)
    ensures |r| == |rows|
    ensures forall i :: 0 <= i < |rows| ==>
      && r[i].id == rows[i].id
      && r[i].createdAt == rows[i].createdAt
      && r[i].deletedAt == rows[i].deletedAt
    ensures forall i :: 0 <= i < |rows| && rows[i].id != a.id ==> r[i] == rows[i]
    ensures forall i :: 0 <= i < |rows| && rows[i].id == a.id ==>
      && r[i].bonusId == a.bonusId && r[i].tributeId == a.tributeId
      && r[i].date == a.date && r[i].rewardKamas == a.rewardKamas && r[i].updatedAt == now
  {
    seq(|rows|, i requires 0 <= i < |rows| => if rows[i].id == a.id then UpdatedRow(rows[i], a, now) else rows[i])
  }

  /** An UPDATE whose id matches no row changes nothing; it is not an error either. */
  lemma UpdateWithoutMatch(rows: seq<Almanax>, a: Almanax, now: Timestamp)
    requires forall i :: 0 <= i < |rows| ==> rows[i].id != a.id
    ensures UpdateRows(rows, a, now) == rows
  {
    assert forall i :: 0 <= i < |rows| ==> UpdateRows(rows, a, now)[i] == rows[i];
  }

  /** Updating a soft-deleted row leaves it deleted, so the queries still do not see it. */
  lemma UpdateKeepsDeletedInvisible(t: Tables, a: Almanax, now: Timestamp, from: string, to: string, nameId: Option<string>)
    requires forall i :: 0 <= i < |t.almanax| && t.almanax[i].id == a.id ==> t.almanax[i].deletedAt.Some?
    ensures forall r :: r in Select(t.(almanax := UpdateRows(t.almanax, a, now)), from, to, nameId) ==> r.almanax.id != a.id
  {
    var t2 := t.(almanax := UpdateRows(t.almanax, a, now));
    SelectSound(t2, from, to, nameId);
    forall r | r in Select(t2, from, to, nameId) ensures r.almanax.id != a.id {
      var i :| 0 <= i < |t2.almanax| && t2.almanax[i] == r.almanax;
      assert t.almanax[i].id == r.almanax.id;
    }
  }

  /** The almanax ids stay pairwise different after an update. */
  lemma UpdateKeepsIds(t: Tables, a: Almanax, now: Timestamp)
    requires UniqueIds(t)
    ensures UniqueIds(t.(almanax := UpdateRows(t.almanax, a, now)))
  {
    var rows := UpdateRows(t.almanax, a, now);
    assert forall i, j :: 0 <= i < j < |rows| ==> rows[i].id == t.almanax[i].id && rows[j].id == t.almanax[j].id;
  }

  /** An inserted almanax row takes a fresh id, so ids stay pairwise different. */
  lemma CreateKeepsIds(t: Tables, a: Almanax, now: Timestamp)
    requires UniqueIds(t)
    ensures UniqueIds(t.(almanax := t.almanax + [NewAlmanaxRow(NextRowId(t.almanax, AlmanaxId), a, now)]))
  {
    var id := NextRowId(t.almanax, AlmanaxId);
    var rows := t.almanax + [NewAlmanaxRow(id, a, now)];
    forall i, j | 0 <= i < j < |rows| ensures rows[i].id != rows[j].id {
      assert rows[i] == t.almanax[i];
      if j < |t.almanax| {
        assert rows[j] == t.almanax[j];
      } else {
        assert AlmanaxId(t.almanax[i]) < id;
      }
    }
  }

  /** An inserted bonus type takes a fresh id, so ids stay pairwise different. */
  lemma CreateBonusTypeKeepsIds(t: Tables, bt: BonusType, now: Timestamp)
    requires UniqueIds(t)
    ensures UniqueIds(t.(bonusTypes := t.bonusTypes + [NewBonusTypeRow(NextRowId(t.bonusTypes, BonusTypeId), bt, now)]))
  {
    var id := NextRowId(t.bonusTypes, BonusTypeId);
    var rows := t.bonusTypes + [NewBonusTypeRow(id, bt, now)];
    forall i, j | 0 <= i < j < |rows| ensures rows[i].id != rows[j].id {
      assert rows[i] == t.bonusTypes[i];
      if j < |t.bonusTypes| {
        assert rows[j] == t.bonusTypes[j];
      } else {
        assert BonusTypeId(t.bonusTypes[i]) < id;
      }
    }
  }

  /**
   * A created almanax row whose bonus, bonus type and tribute exist, and whose
   * date lies in a range, is returned by the date-range query over that range.
   */
  lemma CreatedRowIsFound(t: Tables, a: Almanax, now: Timestamp, from: string, to: string, r: Row)
    requires UniqueIds(t)
    requires r.almanax == NewAlmanaxRow(NextRowId(t.almanax, AlmanaxId), a, now)
    requires r.bonus in t.bonus && r.bonusType in t.bonusTypes && r.tribute in t.tribute
    requires r.bonus.id == a.bonusId && r.bonusType.id == r.bonus.bonusTypeId && r.tribute.id == a.tributeId
    requires StrLe(from, a.date) && StrLe(a.date, to)
    ensures r in Select(t.(almanax := t.almanax + [r.almanax]), from, to, None)
  {
    var t2 := t.(almanax := t.almanax + [r.almanax]);
    CreateKeepsIds(t, a, now);
    assert r.almanax == t2.almanax[|t.almanax|];
    SelectExact(t2, from, to, None);
  }

  /** The almanax store: the rows of its four tables, in insertion order. */
  class Repository {
    var almanax: seq<Almanax>
    var bonus: seq<Bonus>
    var bonusTypes: seq<BonusType>
    var tribute: seq<Tribute>

    function Contents(): Tables
      reads this
    {
      Tables(almanax, bonus, bonusTypes, tribute)
    }

    /** Every table's `id` is its primary key. */
    ghost predicate Valid()
      reads this
    {
      UniqueIds(Contents())
    }

    /** A store opened on existing tables. */
    constructor (t: Tables)
      requires UniqueIds(t)
      ensures Contents() == t && Valid()
    {
      almanax := t.almanax;
      bonus := t.bonus;
      bonusTypes := t.bonusTypes;
      tribute := t.tribute;
    }

    /**
     * `GetAlmanaxByDateRange`: the joined, non-deleted rows with
     * `from <= date <= to`, ascending by date; any database error yields no
     * rows at all.
     */
    method GetAlmanaxByDateRange(from: string, to: string, fault: QueryFault)
      returns (r: Result<seq<MappedAlmanax>, string>)
      ensures r == Outcome(Select(Contents(), from, to, None), fault)
      ensures r.Success? ==>
        && (forall i :: 0 <= i < |r.value| ==>
              && r.value[i].almanax.deletedAt.None?
              && StrLe(from, r.value[i].almanax.date) && StrLe(r.value[i].almanax.date, to)
              && r.value[i].bonus.id == r.value[i].almanax.bonusId
              && r.value[i].bonusType.id == r.value[i].bonus.bonusTypeId
              && r.value[i].tribute.id == r.value[i].almanax.tributeId)
        && (forall i, j :: 0 <= i < j < |r.value| ==> StrLe(r.value[i].almanax.date, r.value[j].almanax.date))
      ensures Valid() && r.Success? ==> forall i, j :: 0 <= i < j < |r.value| ==> r.value[i].almanax.id != r.value[j].almanax.id
      ensures !StrLe(from, to) && !fault.QueryFailed? && !fault.IterationFailed? ==> r == Success([])
    {
      if fault.QueryFailed? {
        return Failure(fault.message);
      }
      var rows := Select(Contents(), from, to, None);
      r := ScanRows(rows, fault);
      if r.Success? {
        SuccessfulQuery(Contents(), from, to, None, fault);
      }
      if !StrLe(from, to) {
        SelectEmptyWhenInverted(Contents(), from, to, None);
      }
    }

    /**
     * `GetAlmanaxByDateRangeAndNameID`: the same query restricted to rows
     * whose bonus type has slug `nameId`.
     */
    method GetAlmanaxByDateRangeAndNameID(from: string, to: string, nameId: string, fault: QueryFault)
      returns (r: Result<seq<MappedAlmanax>, string>)
      ensures r == Outcome(Select(Contents(), from, to, Some(nameId)), fault)
      ensures r.Success? ==>
        && (forall i :: 0 <= i < |r.value| ==>
              && r.value[i].almanax.deletedAt.None?
              && StrLe(from, r.value[i].almanax.date) && StrLe(r.value[i].almanax.date, to)
              && r.value[i].bonusType.nameId == nameId)
        && (forall i, j :: 0 <= i < j < |r.value| ==> StrLe(r.value[i].almanax.date, r.value[j].almanax.date))
      ensures Valid() && r.Success? ==> forall i, j :: 0 <= i < j < |r.value| ==> r.value[i].almanax.id != r.value[j].almanax.id
      ensures fault == NoFault ==>
        r == Success(KeepNameId(Outcome(Select(Contents(), from, to, None), NoFault).value, nameId))
    {
      if fault.QueryFailed? {
        return Failure(fault.message);
      }
      var rows := Select(Contents(), from, to, Some(nameId));
      r := ScanRows(rows, fault);
      if r.Success? {
        SuccessfulQuery(Contents(), from, to, Some(nameId), fault);
      }
      ByNameQueryIsRestriction(Contents(), from, to, nameId);
    }

    /**
     * `Create`: inserts a row with the almanax's bonus_id, tribute_id, date and
     * reward_kamas, stamped `now`, and returns its id. `execError` is the error
     * the database reports for the statement, if any.
     */
    method Create(a: Almanax, now: Timestamp, execError: Option<string>) returns (r: Result<int, string>)
      requires Valid()
      modifies this
      ensures Valid()
      ensures execError.Some? ==> r == Failure(execError.value) && almanax == old(almanax)
      ensures execError.None? ==>
        && r == Success(NextRowId(old(almanax), AlmanaxId))
        && almanax == old(almanax) + [NewAlmanaxRow(r.value, a, now)]
      ensures execError.None? ==> forall i :: 0 <= i < |old(almanax)| ==> old(almanax)[i].id != r.value
      ensures bonus == old(bonus) && bonusTypes == old(bonusTypes) && tribute == old(tribute)
    {
      if execError.Some? {
        return Failure(execError.value);
      }
      var id := NextRowId(almanax, AlmanaxId);
      CreateKeepsIds(Contents(), a, now);
      almanax := almanax + [NewAlmanaxRow(id, a, now)];
      return Success(id);
    }

    /**
     * `UpdateAlmanax`: overwrites the four columns and updated_at of the row
     * whose id is `a.id`. It does not look at deleted_at, and a missing row
     * is not an error.
     */
    method UpdateAlmanax(a: Almanax, now: Timestamp, execError: Option<string>) returns (err: Option<string>)
      requires Valid()
      modifies this
      ensures Valid()
      ensures err == execError
      ensures almanax == if execError.Some? then old(almanax) else UpdateRows(old(almanax), a, now)
      ensures bonus == old(bonus) && bonusTypes == old(bonusTypes) && tribute == old(tribute)
    {
      if execError.Some? {
        return execError;
      }
      UpdateKeepsIds(Contents(), a, now);
      almanax := UpdateRows(almanax, a, now);
      return None;
    }

    /** `CreateBonusType`: inserts a bonus type stamped `now` and returns its id. */
    method CreateBonusType(bt: BonusType, now: Timestamp, execError: Option<string>) returns (r: Result<int, string>)
      requires Valid()
      modifies this
      ensures Valid()
      ensures execError.Some? ==> r == Failure(execError.value) && bonusTypes == old(bonusTypes)
      ensures execError.None? ==>
        && r == Success(NextRowId(old(bonusTypes), BonusTypeId))
        && bonusTypes == old(bonusTypes) + [NewBonusTypeRow(r.value, bt, now)]
      ensures execError.None? ==> forall i :: 0 <= i < |old(bonusTypes)| ==> old(bonusTypes)[i].id != r.value
      ensures almanax == old(almanax) && bonus == old(bonus) && tribute == old(tribute)
    {
      if execError.Some? {
        return Failure(execError.value);
      }
      var id := NextRowId(bonusTypes, BonusTypeId);
      CreateBonusTypeKeepsIds(Contents(), bt, now);
      bonusTypes := bonusTypes + [NewBonusTypeRow(id, bt, now)];
      return Success(id);
    }
  }
}
