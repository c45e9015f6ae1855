/**
 * The generic data-access layer: a table of rows keyed by a 32-bit `Id`, a
 * list of staged changes, and the manual `MAX(Id) + 1` allocation used because
 * the database does not generate keys. Staged changes reach the table only
 * when they are saved, all together or not at all.
 */
module CommonRepository {
  import opened Wrappers

  const Int32Min: int := -0x8000_0000
  const Int32Max: int := 0x7FFF_FFFF

  /** The C# `int` of an entity's `Id`. */
  type Int32 = x: int | Int32Min <= x <= Int32Max

  /** C#'s unchecked `int` arithmetic: the value taken modulo 2^32 into the `int` range. */
  function Wrap32(x: int): (r: Int32)
    ensures (r - x) % 0x1_0000_0000 == 0
    ensures Int32Min <= x <= Int32Max ==> r == x
  {
    (x - Int32Min) % 0x1_0000_0000 + Int32Min
  }

  /** A persisted or staged entity: its key and everything else it holds. */
  datatype Row<T> = Row(id: Int32, data: T)

  /** A change waiting in the change tracker. */
  datatype Change<T> = Added(row: Row<T>) | Modified(row: Row<T>) | Removed(row: Row<T>)

  /** A save that the database refuses: a duplicate key, or a missing row to update or delete. */
  datatype Error = Conflict

  predicate HasId<T>(rows: seq<Row<T>>, id: int) {
    exists i :: 0 <= i < |rows| && rows[i].id == id
  }

  /** The primary-key constraint of the table. */
  ghost predicate UniqueIds<T>(rows: seq<Row<T>>) {
    forall i, j :: 0 <= i < j < |rows| ==> rows[i].id != rows[j].id
  }

  /** The first row with key `id` (`FirstOrDefaultAsync`), if any. */
  function FindById<T>(rows: seq<Row<T>>, id: int): (r: Option<Row<T>>)
    ensures r.None? <==> !HasId(rows, id)
    ensures r.Some? ==> r.value.id == id
    ensures r.Some? ==> exists i :: 0 <= i < |rows| && rows[i] == r.value
                                   && forall j :: 0 <= j < i ==> rows[j].id != id
    decreases |rows|
  {
    if rows == [] then None
    else if rows[0].id == id then Some(rows[0])
    else
      var r := FindById(rows[1..], id);
      assert forall i :: 0 < i < |rows| ==> rows[i] == rows[1..][i - 1];
      r
  }

  /** The largest key of a non-empty table. */
  function MaxId<T>(rows: seq<Row<T>>): (m: Int32)
    requires |rows| > 0
    ensures HasId(rows, m)
    ensures forall i :: 0 <= i < |rows| ==> rows[i].id <= m
    decreases |rows|
  {
    if |rows| == 1 then rows[0].id
    else
      var rest := MaxId(rows[1..]);
      assert forall i :: 0 < i < |rows| ==> rows[i] == rows[1..][i - 1];
      if rows[0].id < rest then rest else rows[0].id
  }

  /**
   * The key given to a new entity: one more than the largest persisted key, or
   * 1 for an empty table. While no persisted key is `int.MaxValue`, it is
   * above every persisted key.
   */
  function NextId<T>(rows: seq<Row<T>>): (r: Int32)
    ensures rows == [] ==> r == 1
    ensures (forall i :: 0 <= i < |rows| ==> rows[i].id < Int32Max) ==>
              forall i :: 0 <= i < |rows| ==> rows[i].id < r
  {
    var maxId := if |rows| > 0 then MaxId(rows) else 0;
    Wrap32(maxId + 1)
  }

  /**
   * While no persisted key is `int.MaxValue`, the new key is the largest key
   * plus one, so no persisted row has it.
   */
  lemma NextIdAboveAll<T>(rows: seq<Row<T>>)
    requires |rows| > 0
    requires forall i :: 0 <= i < |rows| ==> rows[i].id < Int32Max
    ensures NextId(rows) == MaxId(rows) + 1
    ensures !HasId(rows, NextId(rows))
  {
    var m := MaxId(rows);
    var i :| 0 <= i < |rows| && rows[i].id == m;
  }

  /** A persisted key of `int.MaxValue` makes the addition wrap: the new key is `int.MinValue`. */
  lemma NextIdWrapsAtMax<T>(rows: seq<Row<T>>)
    requires HasId(rows, Int32Max)
    ensures NextId(rows) == Int32Min
  {
    var i :| 0 <= i < |rows| && rows[i].id == Int32Max;
    assert MaxId(rows) >= rows[i].id;
  }

  /** The row found for `id` is the one at index `i` when no earlier row has that key. */
  lemma FindByIdAt<T>(rows: seq<Row<T>>, id: int, i: nat)
    requires i < |rows| && rows[i].id == id
    requires forall j :: 0 <= j < i ==> rows[j].id != id
    ensures FindById(rows, id) == Some(rows[i])
  {
    assert HasId(rows, id);
    var found := FindById(rows, id).value;
    var k :| 0 <= k < |rows| && rows[k] == found
             && forall j :: 0 <= j < k ==> rows[j].id != id;
    assert !(k < i) && !(i < k);
  }

  /**
   * Reading `r` back by key, where `r` keeps the keys of `rows` position by
   * position and puts `row` at every position of key `row.id`.
   */
  lemma ReplacedReadBack<T>(rows: seq<Row<T>>, row: Row<T>, r: seq<Row<T>>, id: int)
    requires |r| == |rows|
    requires forall i :: 0 <= i < |rows| ==> r[i] == if rows[i].id == row.id then row else rows[i]
    ensures FindById(r, id) == if id == row.id && HasId(rows, id) then Some(row) else FindById(rows, id)
  {
    if HasId(rows, id) {
      var found := FindById(rows, id).value;
      var k :| 0 <= k < |rows| && rows[k] == found
               && forall j :: 0 <= j < k ==> rows[j].id != id;
      assert rows[k].id == id;
      FindByIdAt(r, id, k);
    } else {
      assert !HasId(r, id);
    }
  }

  /**
   * `rows` with the row of key `row.id` replaced by `row`: read back by key, it
   * gives `row` for that key when the key was present, and what `rows` gives
   * for every other key.
   */
  function Replace<T>(rows: seq<Row<T>>, row: Row<T>): (r: seq<Row<T>>)
    ensures |r| == |rows|
    ensures forall i :: 0 <= i < |rows| ==> r[i] == if rows[i].id == row.id then row else rows[i]
    ensures HasId(rows, row.id) ==> FindById(r, row.id) == Some(row)
    ensures forall id :: id != row.id ==> FindById(r, id) == FindById(rows, id)
  {
    var r := seq(|rows|, i requires 0 <= i < |rows| => if rows[i].id == row.id then row else rows[i]);
    ReplacedReadBack(rows, row, r, row.id);
    assert forall id :: id != row.id ==> FindById(r, id) == FindById(rows, id) by {
      forall id | id != row.id {
        ReplacedReadBack(rows, row, r, id);
      }
    }
    r
  }

  /** `rows` without the rows of key `id`. */
  function Without<T>(rows: seq<Row<T>>, id: int): (r: seq<Row<T>>)
    ensures forall i :: 0 <= i < |r| ==> r[i].id != id
    ensures forall i :: 0 <= i < |r| ==> r[i] in rows
    ensures forall i :: 0 <= i < |rows| && rows[i].id != id ==> rows[i] in r
    decreases |rows|
  {
    if rows == [] then []
    else if rows[0].id == id then Without(rows[1..], id)
    else [rows[0]] + Without(rows[1..], id)
  }

  lemma AppendKeepsUniqueIds<T>(rows: seq<Row<T>>, row: Row<T>)
    ensures UniqueIds(rows) && !HasId(rows, row.id) ==> UniqueIds(rows + [row])
  {
    if UniqueIds(rows) && !HasId(rows, row.id) {
      var r := rows + [row];
      forall i, j | 0 <= i < j < |r| ensures r[i].id != r[j].id {
        assert r[i] == rows[i];
        if j < |rows| {
          assert r[j] == rows[j];
        }
      }
    }
  }

  lemma ReplaceKeepsKey<T>(rows: seq<Row<T>>, row: Row<T>)
    ensures HasId(rows, row.id) ==> HasId(Replace(rows, row), row.id)
  {
    if HasId(rows, row.id) {
      var i :| 0 <= i < |rows| && rows[i].id == row.id;
      assert Replace(rows, row)[i] == row;
    }
  }

  lemma {:induction false} WithoutKeepsUniqueIds<T>(rows: seq<Row<T>>, id: int)
    ensures UniqueIds(rows) ==> UniqueIds(Without(rows, id))
    decreases |rows|
  {
    if UniqueIds(rows) && rows != [] {
      assert UniqueIds(rows[1..]) by {
        forall i, j | 0 <= i < j < |rows[1..]| ensures rows[1..][i].id != rows[1..][j].id {
          assert rows[1..][i] == rows[i + 1] && rows[1..][j] == rows[j + 1];
        }
      }
      WithoutKeepsUniqueIds(rows[1..], id);
      if rows[0].id != id {
        var w := Without(rows[1..], id);
        forall k | 0 <= k < |w| ensures w[k].id != rows[0].id {
          var m :| 0 <= m < |rows[1..]| && rows[1..][m] == w[k];
          assert rows[1..][m] == rows[m + 1];
        }
        assert UniqueIds([rows[0]] + w) by {
          forall i, j | 0 <= i < j < |[rows[0]] + w|
            ensures ([rows[0]] + w)[i].id != ([rows[0]] + w)[j].id
          {
            if i == 0 {
              assert ([rows[0]] + w)[j] == w[j - 1];
            } else {
              assert ([rows[0]] + w)[i] == w[i - 1] && ([rows[0]] + w)[j] == w[j - 1];
            }
          }
        }
      }
    }
  }

  /**
   * One staged change written to the table: an insert needs a key not yet
   * present, an update or delete a key that is. Afterwards the key is present
   * unless the change removed it, and the primary-key constraint still holds.
   */
  function Apply<T>(rows: seq<Row<T>>, change: Change<T>): (r: Result<seq<Row<T>>, Error>)
    ensures r.Success? <==> (HasId(rows, change.row.id) <==> !change.Added?)
    ensures r.Success? ==> (HasId(r.value, change.row.id) <==> !change.Removed?)
    ensures r.Success? && UniqueIds(rows) ==> UniqueIds(r.value)
  {
    match change
    case Added(row) =>
      if HasId(rows, row.id) then Failure(Conflict)
      else
        AppendKeepsUniqueIds(rows, row);
        assert (rows + [row])[|rows|] == row;
        Success(rows + [row])
    case Modified(row) =>
      if HasId(rows, row.id) then
        ReplaceKeepsKey(rows, row);
        Success(Replace(rows, row))
      else Failure(Conflict)
    case Removed(row) =>
      if HasId(rows, row.id) then
        WithoutKeepsUniqueIds(rows, row.id);
        Success(Without(rows, row.id))
      else Failure(Conflict)
  }

  /**
   * All staged changes written in order; the first refused change refuses the
   * whole save. A save that succeeds never breaks the primary-key constraint.
   */
  function Commit<T>(rows: seq<Row<T>>, changes: seq<Change<T>>): (r: Result<seq<Row<T>>, Error>)
    ensures r.Success? && UniqueIds(rows) ==> UniqueIds(r.value)
    decreases |changes|
  {
    if changes == [] then Success(rows)
    else match Apply(rows, changes[0])
      case Failure(e) => Failure(e)
      case Success(next) => Commit(next, changes[1..])
  }

  // ---------------------------------------------------------------------------
  // The change tracker
  // ---------------------------------------------------------------------------

  /** Whether `change` marks a persisted entity of key `id` as modified or removed. */
  predicate Marks<T>(change: Change<T>, id: int) {
    !change.Added? && change.row.id == id
  }

  /** The tracker holds at most one modified-or-removed mark per key, as one entry per tracked entity. */
  ghost predicate OneMarkPerKey<T>(staged: seq<Change<T>>) {
    forall i, j :: 0 <= i < j < |staged| && !staged[i].Added? && !staged[j].Added? ==>
      staged[i].row.id != staged[j].row.id
  }

  /**
   * The tracker after marking a persisted entity modified or removed: an entity
   * that is marked already takes the new mark in its place; otherwise the mark
   * is appended.
   */
  function Track<T>(staged: seq<Change<T>>, change: Change<T>): (r: seq<Change<T>>)
    ensures (forall k :: 0 <= k < |staged| ==> !Marks(staged[k], change.row.id)) ==> r == staged + [change]
    ensures forall k :: 0 <= k < |staged| && Marks(staged[k], change.row.id)
                        && (forall l :: 0 <= l < k ==> !Marks(staged[l], change.row.id)) ==>
                          r == staged[k := change]
    decreases |staged|
  {
    if staged == [] then [change]
    else if Marks(staged[0], change.row.id) then [change] + staged[1..]
    else
      var rest := Track(staged[1..], change);
      assert forall k :: 0 < k < |staged| ==> staged[k] == staged[1..][k - 1];
      [staged[0]] + rest
  }

  /** Marking an entity keeps one mark per key. */
  lemma TrackKeepsOneMarkPerKey<T>(staged: seq<Change<T>>, change: Change<T>)
    requires OneMarkPerKey(staged) && !change.Added?
    ensures OneMarkPerKey(Track(staged, change))
  {
    var id := change.row.id;
    if k :| 0 <= k < |staged| && Marks(staged[k], id) {
      assert forall l :: 0 <= l < k ==> !Marks(staged[l], id);
      var r := Track(staged, change);
      assert r == staged[k := change];
      forall i, j | 0 <= i < j < |r| && !r[i].Added? && !r[j].Added? ensures r[i].row.id != r[j].row.id {
        assert r[i].row.id == staged[i].row.id && r[j].row.id == staged[j].row.id;
      }
    } else {
      var r := Track(staged, change);
      assert r == staged + [change];
      forall i, j | 0 <= i < j < |r| && !r[i].Added? && !r[j].Added? ensures r[i].row.id != r[j].row.id {
        assert r[i] == staged[i];
        if j < |staged| {
          assert r[j] == staged[j];
        }
      }
    }
  }

  /** Staging an insert leaves the marks of the tracker alone. */
  lemma AddKeepsOneMarkPerKey<T>(staged: seq<Change<T>>, row: Row<T>)
    requires OneMarkPerKey(staged)
    ensures OneMarkPerKey(staged + [Added(row)])
  {
    var r := staged + [Added(row)];
    forall i, j | 0 <= i < j < |r| && !r[i].Added? && !r[j].Added? ensures r[i].row.id != r[j].row.id {
      assert r[i] == staged[i] && r[j] == staged[j];
    }
  }

  /**
   * Deleting the same entity twice before saving marks it removed once, and
   * the save deletes it.
   */
  lemma DeleteTwiceSaves<T>(rows: seq<Row<T>>, e: Row<T>)
    requires e in rows
    ensures Track(Track([], Removed(e)), Removed(e)) == [Removed(e)]
    ensures Commit(rows, Track(Track([], Removed(e)), Removed(e))) == Success(Without(rows, e.id))
  {
    assert Track([], Removed(e)) == [Removed(e)];
    assert Marks(Removed(e), e.id);
    assert [Removed(e)][0 := Removed(e)] == [Removed(e)];
    assert HasId(rows, e.id);
    assert [Removed(e)][1..] == [];
  }

  /** Updating an entity deleted earlier in the same unit of work turns the delete into the update. */
  lemma UpdateAfterDeleteSaves<T>(rows: seq<Row<T>>, e: Row<T>, updated: Row<T>)
    requires e in rows && updated.id == e.id
    ensures Track([Removed(e)], Modified(updated)) == [Modified(updated)]
    ensures Commit(rows, Track([Removed(e)], Modified(updated))) == Success(Replace(rows, updated))
  {
    assert Marks(Removed(e), updated.id);
    assert [Removed(e)][0 := Modified(updated)] == [Modified(updated)];
    assert HasId(rows, updated.id);
    assert [Modified(updated)][1..] == [];
  }

  /** Creating an entity without a key and saving it stores it under the next key. */
  lemma {:induction false} CreateThenSave<T>(rows: seq<Row<T>>, data: T)
    requires forall i :: 0 <= i < |rows| ==> rows[i].id < Int32Max
    ensures Commit(rows, [Added(Row(NextId(rows), data))]) == Success(rows + [Row(NextId(rows), data)])
  {
    if rows != [] {
      NextIdAboveAll(rows);
    }
  }

  /**
   * Two entities that took their key from the same table snapshot get the
   * same key: saved together, or one after the other, the second is refused.
   */
  lemma RacingAllocationsConflict<T>(rows: seq<Row<T>>, a: T, b: T)
    ensures var id := NextId(rows);
            Commit(rows, [Added(Row(id, a)), Added(Row(id, b))]) == Failure(Conflict)
    ensures var id := NextId(rows);
            forall next :: Commit(rows, [Added(Row(id, a))]) == Success(next) ==>
                           Commit(next, [Added(Row(id, b))]) == Failure(Conflict)
  {
    var id := NextId(rows);
    var first := Apply(rows, Added(Row(id, a)));
    if first.Success? {
      assert first.value[|rows|].id == id;
      assert HasId(first.value, id);
    }
  }

  class GenericRepository<T> {
    /** The persisted table. */
    var rows: seq<Row<T>>
    /** The change tracker: changes staged since the last save. */
    var staged: seq<Change<T>>

    /** The primary-key constraint holds and each tracked entity has one mark. */
    ghost predicate Valid()
      reads this
    {
      UniqueIds(rows) && OneMarkPerKey(staged)
    }

    constructor (rows: seq<Row<T>>)
      requires UniqueIds(rows)
      ensures Valid() && this.rows == rows && staged == []
    {
      this.rows := rows;
      staged := [];
    }

    /** The persisted entity with key `id`, if there is one; staged changes are not seen. */
    method GetById(id: Int32) returns (r: Option<Row<T>>)
      ensures r.Some? <==> HasId(rows, id)
      ensures r.Some? ==> r.value.id == id && r.value in rows
    {
      r := FindById(rows, id);
      if r.Some? {
        ghost var i :| 0 <= i < |rows| && rows[i] == r.value && forall j :: 0 <= j < i ==> rows[j].id != id;
      }
    }

    /**
     * Stages `entity` for insertion and returns it. A zero key is first
     * replaced by the next key, computed from the persisted rows only.
     */
    method Create(entity: Row<T>) returns (created: Row<T>)
      requires Valid()
      modifies this`staged
      ensures Valid()
      ensures created.data == entity.data
      ensures entity.id != 0 ==> created == entity
      ensures entity.id == 0 ==> created.id == NextId(rows)
      ensures staged == old(staged) + [Added(created)]
    {
      created := entity;
      if entity.id == 0 {
        var maxId := if |rows| > 0 then MaxId(rows) else 0;
        created := Row(Wrap32(maxId + 1), entity.data);
      }
      AddKeepsOneMarkPerKey(staged, created);
      staged := staged + [Added(created)];
    }

    /**
     * Marks `entity` modified when a persisted row has its key; reports whether
     * one does. An entity marked already takes the new mark in place.
     */
    method Update(entity: Row<T>) returns (found: bool)
      requires Valid()
      modifies this`staged
      ensures Valid()
      ensures found <==> HasId(rows, entity.id)
      ensures staged == if found then Track(old(staged), Modified(entity)) else old(staged)
    {
      var existing := GetById(entity.id);
      if existing.None? {
        return false;
      }
      TrackKeepsOneMarkPerKey(staged, Modified(entity));
      staged := Track(staged, Modified(entity));
      return true;
    }

    /**
     * Marks the persisted row with key `id` removed; reports whether there is
     * one. An entity marked already takes the new mark in place.
     */
    method Delete(id: Int32) returns (found: bool)
      requires Valid()
      modifies this`staged
      ensures Valid()
      ensures found <==> HasId(rows, id)
      ensures !found ==> staged == old(staged)
      ensures found ==> exists e :: e in rows && e.id == id && staged == Track(old(staged), Removed(e))
    {
      var entity := GetById(id);
      if entity.None? {
        return false;
      }
      TrackKeepsOneMarkPerKey(staged, Removed(entity.value));
      staged := Track(staged, Removed(entity.value));
      return true;
    }

    /** Writes every staged change, or none of them when the database refuses one. */
    method SaveChanges() returns (r: Outcome<Error>)
      requires Valid()
      modifies this
      ensures Valid()
      ensures match Commit(old(rows), old(staged))
              case Success(next) => r == Pass && rows == next && staged == []
              case Failure(e) => r == Fail(e) && rows == old(rows) && staged == old(staged)
    {
      var committed := Commit(rows, staged);
      if committed.Failure? {
        return Fail(committed.error);
      }
      rows := committed.value;
      staged := [];
      return Pass;
    }
  }

  /**
   * Two entities created in one unit of work before a save get the same key,
   * because staged inserts do not count towards the maximum; the save is refused.
   */
  method TwoCreatesBeforeSave<T>(repo: GenericRepository<T>, a: T, b: T)
    returns (first: Row<T>, second: Row<T>, saved: Outcome<Error>)
    requires repo.Valid() && repo.staged == []
    modifies repo
    ensures first.id == second.id == NextId(old(repo.rows))
    ensures saved == Fail(Conflict) && repo.rows == old(repo.rows)
  {
    first := repo.Create(Row(0, a));
    second := repo.Create(Row(0, b));
    RacingAllocationsConflict(repo.rows, a, b);
    assert repo.staged == [Added(first), Added(second)];
    saved := repo.SaveChanges();
  }

  /**
   * Deleting the same persisted entity twice before a save succeeds both
   * times, and the save deletes it once.
   */
  method DeleteTwiceBeforeSave<T>(repo: GenericRepository<T>, id: Int32)
    returns (first: bool, second: bool, saved: Outcome<Error>)
    requires repo.Valid() && repo.staged == [] && HasId(repo.rows, id)
    modifies repo
    ensures first && second && saved == Pass
    ensures repo.Valid() && !HasId(repo.rows, id)
    ensures forall e :: e in old(repo.rows) && e.id != id ==> e in repo.rows
  {
    first := repo.Delete(id);
    ghost var e :| e in repo.rows && e.id == id && repo.staged == Track([], Removed(e));
    second := repo.Delete(id);
    ghost var e2 :| e2 in repo.rows && e2.id == id && repo.staged == Track(Track([], Removed(e)), Removed(e2));
    assert Marks(Removed(e), e2.id);
    assert repo.staged == [Removed(e2)];
    saved := repo.SaveChanges();
  }
}
