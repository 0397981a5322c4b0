/** The repair that slips migration 17 into a table of applied migrations
    (`constancy/fix/migration17.go`). */
module Migration17 {
  import opened Common

  /** The applied migrations by id: the number in a migration's name, if the name has one.
      The id is the primary key. */
  type Table = map<int, Option<int>>

  predicate Moves(name: Option<int>) {
    name.Some? && name.value > 17
  }

  // ---------------------------------------------------------------- the shift

  /** The table once the migrations after 17 among `done` have gone up by one. */
  ghost predicate Shifted(before: Table, after: Table, done: set<int>) {
    forall j: int :: ShiftedAt(before, after, done, j)
  }

  ghost predicate ShiftedAt(before: Table, after: Table, done: set<int>, j: int) {
    && (j in after <==> Stays(before, j, done) || Arrives(before, j, done))
    && (j in after ==> after[j] == if Arrives(before, j, done) then before[j - 1] else before[j])
  }

  ghost predicate Stays(before: Table, j: int, done: set<int>) {
    j in before && !(Moves(before[j]) && j in done)
  }

  ghost predicate Arrives(before: Table, j: int, done: set<int>) {
    j - 1 in before && Moves(before[j - 1]) && j - 1 in done
  }

  /** A migration after 17 has a free place above it, or one that goes up as well. */
  ghost predicate HasRoom(t: Table, id: int) {
    id in t && Moves(t[id]) && id + 1 in t ==> Moves(t[id + 1])
  }

  /** Every name is a number and every migration after 17 has room. */
  ghost predicate Shiftable(t: Table, ids: set<int>) {
    forall id :: id in ids && id in t ==> t[id].Some? && HasRoom(t, id)
  }

  /** The answer to SELECT with ORDER BY id DESC. */
  ghost predicate Descending(order: seq<int>, t: Table) {
    && (forall i, j :: 0 <= i < j < |order| ==> order[i] > order[j])
    && Elements(order) == t.Keys
  }

  /** The lowest id that 18 has among some, or zero. */
  ghost predicate IsSlot(t: Table, ids: set<int>, slot: int) {
    if exists id :: id in ids && id in t && t[id] == Some(18) then
      && slot in ids && slot in t && t[slot] == Some(18)
      && forall id :: id in ids && id in t && t[id] == Some(18) ==> slot <= id
    else slot == 0
  }

  ghost predicate IsMax(ids: set<int>, max: int) {
    max >= 0 && (forall id :: id in ids ==> id <= max) && (max == 0 || max in ids)
  }

  /** The row at hand is still as it was, and the place above it is taken exactly when it
      has no room. */
  lemma NotYetShifted(before: Table, cur: Table, order: seq<int>, i: nat)
    requires i < |order| && Descending(order, before) && Shifted(before, cur, Elements(order[..i]))
    ensures var id := order[i];
            && id in before && id in cur && cur[id] == before[id]
            && (Moves(before[id]) ==> (id + 1 in cur <==> !HasRoom(before, id)))
  {
    var id, done := order[i], Elements(order[..i]);
    assert id in Elements(order);
    assert id !in done && id - 1 !in done;
    if id + 1 in before {
      assert id + 1 in Elements(order);
      var k :| 0 <= k < |order| && order[k] == id + 1;
      assert k < i;
      assert order[..i][k] == id + 1;
      assert id + 1 in done;
    }
    assert ShiftedAt(before, cur, done, id) && ShiftedAt(before, cur, done, id + 1);
  }

  lemma OneMoreShifted(before: Table, cur: Table, next: Table, done: set<int>, id: int)
    requires Shifted(before, cur, done) && id in before && id !in done && id - 1 !in done
    requires Moves(before[id]) ==> id + 1 !in cur
    requires next == if Moves(before[id]) then (cur - {id})[id + 1 := before[id]] else cur
    ensures Shifted(before, next, done + {id})
  {
    forall j: int
      ensures ShiftedAt(before, next, done + {id}, j)
    {
      assert ShiftedAt(before, cur, done, j);
    }
  }

  lemma LowerSlot(t: Table, done: set<int>, slot: int, id: int)
    requires IsSlot(t, done, slot) && id in t && forall j :: j in done ==> j > id
    ensures IsSlot(t, done + {id}, if t[id] == Some(18) then id else slot)
  {
    if t[id] == Some(18) {
      assert id in done + {id};
    } else if j :| j in done && j in t && t[j] == Some(18) {
      assert j in done + {id};
    }
  }

  lemma ShiftableWith(t: Table, done: set<int>, id: int)
    requires Shiftable(t, done) && id in t && t[id].Some? && HasRoom(t, id)
    ensures Shiftable(t, done + {id})
  {
  }

  lemma MaxWith(done: set<int>, max: int, id: int)
    requires IsMax(done, max)
    ensures IsMax(done + {id}, if max < id then id else max)
  {
  }

  /** Once all have been visited, every migration after 17 stands one id higher and every
      other one where it stood, and nothing else is there. */
  lemma ShiftMovesExactly(before: Table, after: Table)
    requires Shifted(before, after, before.Keys) && Shiftable(before, before.Keys)
    ensures forall id, n :: id in before && before[id] == Some(n) ==>
                              Lookup(after, if n > 17 then id + 1 else id) == Some(Some(n))
    ensures forall j :: j in after ==>
                          || (j in before && after[j] == before[j] && before[j].value <= 17)
                          || (j - 1 in before && after[j] == before[j - 1] && before[j - 1].value > 17)
  {
    forall id, n | id in before && before[id] == Some(n)
      ensures Lookup(after, if n > 17 then id + 1 else id) == Some(Some(n))
    {
      assert ShiftedAt(before, after, before.Keys, if n > 17 then id + 1 else id);
      assert id - 1 in before ==> HasRoom(before, id - 1);
    }
    forall j | j in after
      ensures || (j in before && after[j] == before[j] && before[j].value <= 17)
              || (j - 1 in before && after[j] == before[j - 1] && before[j - 1].value > 17)
    {
      assert ShiftedAt(before, after, before.Keys, j);
    }
  }

  /** What holds while the rows of `done` have been visited from the top. */
  ghost predicate Progress(before: Table, cur: Table, done: set<int>, slot: int, max: int) {
    Shifted(before, cur, done) && Shiftable(before, done) && IsSlot(before, done, slot) && IsMax(done, max)
  }

  lemma ProgressStep(before: Table, cur: Table, next: Table, order: seq<int>, i: nat, slot: int, max: int)
    requires i < |order| && Descending(order, before) && Progress(before, cur, Elements(order[..i]), slot, max)
    requires var id := order[i];
             && id in cur && cur[id].Some? && (Moves(cur[id]) ==> id + 1 !in cur)
             && next == if Moves(cur[id]) then (cur - {id})[id + 1 := cur[id]] else cur
    ensures Progress(before, next, Elements(order[..i + 1]), if cur[order[i]] == Some(18) then order[i] else slot,
                     if max < order[i] then order[i] else max)
  {
    var id, done := order[i], Elements(order[..i]);
    PrefixSnoc(order, i);
    ElementsSnoc(order[..i], id);
    assert id in before && cur[id] == before[id] && HasRoom(before, id) by {
      NotYetShifted(before, cur, order, i);
    }
    NotAmongDone(order, i);
    LowerSlot(before, done, slot, id);
    OneMoreShifted(before, cur, next, done, id);
    ShiftableWith(before, done, id);
    MaxWith(done, max, id);
  }

  lemma NotAmongDone(order: seq<int>, i: nat)
    requires i < |order| && forall j, k :: 0 <= j < k < |order| ==> order[j] > order[k]
    ensures forall id :: id in Elements(order[..i]) ==> id > order[i]
  {
  }

  /** A row that cannot be visited was there from the start. */
  lemma StuckIsNotShiftable(before: Table, cur: Table, order: seq<int>, i: nat)
    requires i < |order| && Descending(order, before) && Shifted(before, cur, Elements(order[..i]))
    requires order[i] in cur && (cur[order[i]] == None || (Moves(cur[order[i]]) && order[i] + 1 in cur))
    ensures !Shiftable(before, before.Keys)
  {
    NotYetShifted(before, cur, order, i);
  }

  /** The migrations table and the sequence its ids come from. */
  class MigrationStore {
    var rows: Table
    var sequence: int

    /** UPDATE ... SET id = id + 1 WHERE id: refused when the new id is taken. */
    method MoveUp(id: int) returns (ok: bool)
      requires id in rows
      modifies this`rows
      ensures ok <==> id + 1 !in old(rows)
      ensures rows == if ok then (old(rows) - {id})[id + 1 := old(rows)[id]] else old(rows)
    {
      ok := id + 1 !in rows;
      if ok {
        rows := (rows - {id})[id + 1 := rows[id]];
      }
    }

    /** The descending shift. No two rows ever share an id: a row that finds the next id
        taken is refused, and this happens exactly where a row has no room. */
    method ShiftUp(order: seq<int>) returns (ok: bool, rec17Id: int, maxId: int)
      requires Descending(order, rows)
      modifies this`rows
      ensures ok <==> Shiftable(old(rows), old(rows).Keys)
      ensures ok ==> Shifted(old(rows), rows, old(rows).Keys)
      ensures ok ==> IsSlot(old(rows), old(rows).Keys, rec17Id) && IsMax(old(rows).Keys, maxId)
    {
      rec17Id, maxId := 0, 0;
      ghost var before := rows;
      for i := 0 to |order|
        invariant Progress(before, rows, Elements(order[..i]), rec17Id, maxId)
      {
        var id := order[i];
        ghost var cur, slot, max := rows, rec17Id, maxId;
        NotYetShifted(before, cur, order, i);
        if maxId < id {
          maxId := id;
        }
        if rows[id] == None {
          StuckIsNotShiftable(before, cur, order, i);
          return false, rec17Id, maxId;
        }
        var migrationNum := rows[id].value;
        if migrationNum > 17 {
          if migrationNum == 18 {
            rec17Id := id;
          }
          var moved := MoveUp(id);
          if !moved {
            StuckIsNotShiftable(before, cur, order, i);
            return false, rec17Id, maxId;
          }
        }
        ProgressStep(before, cur, rows, order, i, slot, max);
      }
      assert order[..|order|] == order;
      ok := true;
    }

    method NextVal() returns (value: int)
      modifies this`sequence
      ensures sequence == old(sequence) + 1 && value == sequence
    {
      sequence := sequence + 1;
      value := sequence;
    }

    /** Draws from the sequence until it has passed the ids in use; at least once. */
    method CatchUp(maxId: int)
      requires maxId >= 0 && sequence >= 0
      modifies this`sequence
      ensures sequence == if old(sequence) <= maxId then maxId + 1 else old(sequence) + 1
    {
      var actualSeqValue := 0;
      while maxId + 1 > actualSeqValue
        invariant if actualSeqValue == 0 then sequence == old(sequence) else actualSeqValue == sequence > old(sequence)
        invariant sequence <= maxId + 1 || sequence <= old(sequence) + 1
        decreases if actualSeqValue == 0 then 1 else 0, maxId + 1 - sequence
      {
        actualSeqValue := NextVal();
      }
    }

    /** The whole repair, in one transaction. It goes through exactly when every migration
        after 17 can move up and the place of the new record is free after the move; then
        the table is the shifted one with the record in it and the sequence has passed every
        id the shift has used. A record without a place (zero) asks the id column for
        `serial`. Where ids follow the numbers and 18 is there without 17, the repair goes
        through and ids follow the numbers again, 17 included. */
    method WriteMigration17ToTable(order: seq<int>, serial: int) returns (ok: bool, rec17Id: int, ghost shifted: Table)
      requires Descending(order, rows) && sequence >= 0
      modifies this
      ensures ok ==> IsSlot(old(rows), old(rows).Keys, rec17Id)
      ensures ok <==> Shiftable(old(rows), old(rows).Keys)
                      && exists slot :: IsSlot(old(rows), old(rows).Keys, slot)
                                        && FreeAfterShift(old(rows), PlaceOf(slot, serial))
      ensures !ok ==> rows == old(rows) && sequence == old(sequence)
      ensures ok ==>
                Shifted(old(rows), shifted, old(rows).Keys) && rows == shifted[PlaceOf(rec17Id, serial) := Some(17)]
      ensures forall slot :: slot != 0 && IsRepairable(old(rows), slot) ==>
                               ok && rec17Id == slot && FollowsNumbers(rows) && Lookup(rows, slot) == Some(Some(17))
      ensures ok ==> forall id :: id in shifted ==> id <= sequence
      ensures ok ==> sequence > old(sequence)
    {
      ghost var before := rows;
      var saved, maxId := rows, 0;
      ok, rec17Id, maxId := ShiftUp(order);
      shifted := rows;
      if ok {
        OneSlot(before, before.Keys, rec17Id);
        var id := PlaceOf(rec17Id, serial);
        assert ShiftedAt(before, rows, before.Keys, id);
        ok := id !in rows;
        if ok {
          rows := rows[id := Some(17)];
          CatchUp(maxId);
          ShiftedStaysBelow(before, shifted, maxId);
        }
      }
      if !ok {
        rows := saved;
      }
      forall slot | slot != 0 && IsRepairable(before, slot)
        ensures ok && rec17Id == slot && FollowsNumbers(rows) && Lookup(rows, slot) == Some(Some(17))
      {
        OrderedTableIsRepairable(before, slot);
        RepairKeepsOrder(before, slot, shifted);
      }
    }
  }

  function PlaceOf(slot: int, serial: int): int {
    if slot == 0 then serial else slot
  }

  /** No row is left under this id and none arrives there. */
  ghost predicate FreeAfterShift(before: Table, id: int) {
    !Stays(before, id, before.Keys) && !Arrives(before, id, before.Keys)
  }

  lemma OneSlot(t: Table, ids: set<int>, slot: int)
    requires IsSlot(t, ids, slot)
    ensures forall other :: IsSlot(t, ids, other) ==> other == slot
  {
  }

  lemma ShiftedStaysBelow(before: Table, shifted: Table, max: int)
    requires Shifted(before, shifted, before.Keys) && IsMax(before.Keys, max)
    ensures forall id :: id in shifted ==> id <= max + 1
  {
    forall id | id in shifted
      ensures id <= max + 1
    {
      assert ShiftedAt(before, shifted, before.Keys, id);
    }
  }

  // ---------------------------------------------------------------- the usual table

  /** All names are numbers and ids follow them. */
  ghost predicate FollowsNumbers(t: Table) {
    && (forall id :: id in t ==> t[id].Some?)
    && (forall a, b :: a in t && b in t ==> (a < b <==> t[a].value < t[b].value))
  }

  /** Ids follow the numbers, and 18 is there without 17. */
  ghost predicate IsRepairable(t: Table, slot: int) {
    FollowsNumbers(t) && Some(17) !in t.Values && slot in t && t[slot] == Some(18)
  }

  /** In such a table the repair goes through. */
  lemma OrderedTableIsRepairable(t: Table, slot: int)
    requires IsRepairable(t, slot)
    ensures Shiftable(t, t.Keys) && IsSlot(t, t.Keys, slot) && FreeAfterShift(t, slot)
  {
    forall id | id in t && t[id] == Some(18)
      ensures slot <= id
    {
      assert t[id].value == t[slot].value;
    }
    if slot - 1 in t {
      assert t[slot - 1].value < t[slot].value;
      assert t[slot - 1] in t.Values;
    }
  }

  /** Where a row of the shifted table was before. */
  function Origin(before: Table, j: int): int {
    if j - 1 in before && Moves(before[j - 1]) then j - 1 else j
  }

  /** And its ids follow the numbers again, the new record included. */
  lemma RepairKeepsOrder(t: Table, slot: int, shifted: Table)
    requires IsRepairable(t, slot) && Shifted(t, shifted, t.Keys)
    ensures slot !in shifted && FollowsNumbers(shifted[slot := Some(17)])
  {
    OrderedTableIsRepairable(t, slot);
    assert ShiftedAt(t, shifted, t.Keys, slot);
    var final := shifted[slot := Some(17)];
    forall a | a in shifted
      ensures Origin(t, a) in t && shifted[a] == t[Origin(t, a)]
      ensures a == Origin(t, a) + (if t[Origin(t, a)].value > 17 then 1 else 0)
    {
      assert ShiftedAt(t, shifted, t.Keys, a);
    }
    forall a, b | a in final && b in final
      ensures a < b <==> final[a].value < final[b].value
    {
      if a != slot && b != slot {
        SidesAgree(t, Origin(t, a), Origin(t, b));
      } else if a != slot {
        NextToSlot(t, slot, Origin(t, a));
      } else if b != slot {
        NextToSlot(t, slot, Origin(t, b));
      }
    }
  }

  function NewId(t: Table, id: int): int
    requires id in t && t[id].Some?
  {
    id + if t[id].value > 17 then 1 else 0
  }

  lemma SidesAgree(t: Table, a: int, b: int)
    requires FollowsNumbers(t) && a in t && b in t
    ensures NewId(t, a) < NewId(t, b) <==> t[a].value < t[b].value
  {
  }

  lemma NextToSlot(t: Table, slot: int, a: int)
    requires IsRepairable(t, slot) && a in t
    ensures NewId(t, a) < slot <==> t[a].value < 17
    ensures slot < NewId(t, a) <==> 17 < t[a].value
  {
    assert t[a] in t.Values;
    assert t[a].value != 17;
  }
}
