/**
  The Resources table: rows with autoincrement ids, the /latest query, and the cleanups that bound it.
 */
module Retention {
  import opened Models

  datatype Row = Row(id: nat, record: ResourceRecord)

  const LATEST_LIMIT: nat := 100

  /** ORDER BY SvrTime DESC, Id DESC: a comes before b. */
  predicate Newer(a: Row, b: Row) {
    a.record.svrTime > b.record.svrTime || (a.record.svrTime == b.record.svrTime && a.id > b.id)
  }

  predicate SameDevice(a: Row, b: Row) {
    a.record.deviceName == b.record.deviceName
  }

  /** Ids grow in insertion order and stay below the autoincrement counter. */
  ghost predicate IdsIncrease(rows: seq<Row>) {
    forall i, j | 0 <= i < j < |rows| :: rows[i].id < rows[j].id
  }

  ghost predicate ValidTable(rows: seq<Row>, nextId: nat) {
    IdsIncrease(rows) && forall r | r in rows :: r.id < nextId
  }

  // ----- the query side -----

  function RowsOf(rows: seq<Row>, name: string): seq<Row> {
    if rows == [] then []
    else if rows[0].record.deviceName == name then [rows[0]] + RowsOf(rows[1..], name)
    else RowsOf(rows[1..], name)
  }

  function Place(row: Row, sorted: seq<Row>): seq<Row> {
    if sorted == [] || Newer(row, sorted[0]) then [row] + sorted
    else [sorted[0]] + Place(row, sorted[1..])
  }

  function Sorted(rows: seq<Row>): seq<Row> {
    if rows == [] then [] else Place(rows[|rows| - 1], Sorted(rows[..|rows| - 1]))
  }

  function Ordered(rows: seq<Row>, name: string): seq<Row> {
    Sorted(RowsOf(rows, name))
  }

  function Top(sorted: seq<Row>, k: nat): seq<Row> {
    if |sorted| <= k then sorted else sorted[..k]
  }

  function Records(rows: seq<Row>): seq<ResourceRecord> {
    seq(|rows|, i requires 0 <= i < |rows| => rows[i].record)
  }

  function Latest(rows: seq<Row>, name: string): seq<ResourceRecord> {
    Records(Top(Ordered(rows, name), LATEST_LIMIT))
  }

  // ----- the deletes -----

  /** How many rows of the same device come before row. */
  function CountNewer(rows: seq<Row>, row: Row): nat {
    if rows == [] then 0
    else (if SameDevice(rows[0], row) && Newer(rows[0], row) then 1 else 0) + CountNewer(rows[1..], row)
  }

  /** ROW_NUMBER() over the row's own device. */
  function RowNumber(rows: seq<Row>, row: Row): nat {
    CountNewer(rows, row) + 1
  }

  function Select(rows: seq<Row>, keep: Row -> bool): seq<Row> {
    if rows == [] then []
    else if keep(rows[0]) then [rows[0]] + Select(rows[1..], keep)
    else Select(rows[1..], keep)
  }

  function KeepInDevice(rows: seq<Row>, name: string, limit: int): Row -> bool {
    (r: Row) => r.record.deviceName == name ==> RowNumber(rows, r) <= limit
  }

  function KeepAnywhere(rows: seq<Row>, limit: int): Row -> bool {
    (r: Row) => RowNumber(rows, r) <= limit
  }

  function CleanedDevice(rows: seq<Row>, name: string, limit: int): seq<Row> {
    if limit <= 0 || name == "" then rows else Select(rows, KeepInDevice(rows, name, limit))
  }

  function CleanedAll(rows: seq<Row>, limit: int): seq<Row> {
    if limit <= 0 then rows else Select(rows, KeepAnywhere(rows, limit))
  }

  // ----- selections -----

  lemma {:induction false} SelectMembers(rows: seq<Row>, keep: Row -> bool)
    ensures forall r :: r in Select(rows, keep) <==> r in rows && keep(r)
  {
    if rows == [] {
    } else {
      SelectMembers(rows[1..], keep);
      assert forall r :: r in rows <==> r == rows[0] || r in rows[1..];
    }
  }

  lemma {:induction false} SelectKeepsOrder(rows: seq<Row>, keep: Row -> bool)
    requires IdsIncrease(rows)
    ensures IdsIncrease(Select(rows, keep))
  {
    if rows == [] {
    } else {
      SelectKeepsOrder(rows[1..], keep);
      SelectMembers(rows[1..], keep);
      var rest := Select(rows[1..], keep);
      assert forall r | r in rows[1..] :: rows[0].id < r.id;
      assert forall i | 0 <= i < |rest| :: rest[i] in rest;
    }
  }

  lemma {:induction false} SelectAgrees(rows: seq<Row>, p: Row -> bool, q: Row -> bool)
    requires forall r | r in rows :: p(r) == q(r)
    ensures Select(rows, p) == Select(rows, q)
  {
    if rows == [] {
    } else {
      SelectAgrees(rows[1..], p, q);
    }
  }

  lemma {:induction false} SelectTwice(rows: seq<Row>, p: Row -> bool, q: Row -> bool, both: Row -> bool)
    requires forall r | r in rows :: both(r) == (p(r) && q(r))
    ensures Select(Select(rows, p), q) == Select(rows, both)
  {
    if rows == [] {
    } else {
      SelectTwice(rows[1..], p, q, both);
    }
  }

  lemma {:induction false} SelectEverything(rows: seq<Row>, keep: Row -> bool)
    requires forall r | r in rows :: keep(r)
    ensures Select(rows, keep) == rows
  {
    if rows == [] {
    } else {
      SelectEverything(rows[1..], keep);
    }
  }

  lemma {:induction false} SelectSnoc(rows: seq<Row>, row: Row, keep: Row -> bool)
    ensures Select(rows + [row], keep) == Select(rows, keep) + if keep(row) then [row] else []
  {
    if rows == [] {
      assert rows + [row] == [row] && Select([row], keep) == if keep(row) then [row] else [];
    } else {
      SelectSnoc(rows[1..], row, keep);
      assert (rows + [row])[1..] == rows[1..] + [row];
    }
  }

  lemma {:induction false} RowsOfMembers(rows: seq<Row>, name: string)
    ensures forall r :: r in RowsOf(rows, name) <==> r in rows && r.record.deviceName == name
    ensures IdsIncrease(rows) ==> IdsIncrease(RowsOf(rows, name))
  {
    if rows == [] {
    } else {
      RowsOfMembers(rows[1..], name);
      assert forall r :: r in rows <==> r == rows[0] || r in rows[1..];
    }
  }

  lemma {:induction false} RowsOfSnoc(rows: seq<Row>, row: Row, name: string)
    ensures RowsOf(rows + [row], name) == RowsOf(rows, name) + if row.record.deviceName == name then [row] else []
  {
    if rows == [] {
      assert rows + [row] == [row];
    } else {
      RowsOfSnoc(rows[1..], row, name);
      assert (rows + [row])[1..] == rows[1..] + [row];
    }
  }

  lemma {:induction false} RowsOfSelect(rows: seq<Row>, keep: Row -> bool, name: string)
    ensures RowsOf(Select(rows, keep), name) == Select(RowsOf(rows, name), keep)
  {
    if rows == [] {
    } else {
      RowsOfSelect(rows[1..], keep, name);
    }
  }

  // ----- sorting -----

  ghost predicate StrictlySorted(rows: seq<Row>) {
    forall i, j | 0 <= i < j < |rows| :: Newer(rows[i], rows[j])
  }

  lemma {:induction false} PlaceSorts(row: Row, sorted: seq<Row>)
    requires StrictlySorted(sorted) && forall r | r in sorted :: r.id != row.id
    ensures StrictlySorted(Place(row, sorted))
    ensures |Place(row, sorted)| == |sorted| + 1
    ensures forall r :: r in Place(row, sorted) <==> r in sorted || r == row
  {
    if sorted != [] && !Newer(row, sorted[0]) {
      PlaceSorts(row, sorted[1..]);
      assert sorted == [sorted[0]] + sorted[1..];
      assert forall r | r in sorted[1..] :: Newer(sorted[0], r);
    }
  }

  lemma {:induction false} SortedSorts(rows: seq<Row>)
    requires IdsIncrease(rows)
    ensures StrictlySorted(Sorted(rows)) && |Sorted(rows)| == |rows|
    ensures forall r :: r in Sorted(rows) <==> r in rows
  {
    if rows == [] {
    } else {
      var n := |rows| - 1;
      SortedSorts(rows[..n]);
      PlaceSorts(rows[n], Sorted(rows[..n]));
      assert rows == rows[..n] + [rows[n]];
    }
  }

  lemma {:induction false} SelectPlace(row: Row, sorted: seq<Row>, keep: Row -> bool)
    requires StrictlySorted(sorted) && forall r | r in sorted :: r.id != row.id
    ensures Select(Place(row, sorted), keep)
            == if keep(row) then Place(row, Select(sorted, keep)) else Select(sorted, keep)
  {
    if sorted == [] {
    } else if Newer(row, sorted[0]) {
      SelectMembers(sorted, keep);
      assert forall r | r in sorted :: Newer(row, r);
      assert Select(sorted, keep) != [] ==> Select(sorted, keep)[0] in sorted;
      assert ([row] + sorted)[1..] == sorted;
    } else {
      SelectPlace(row, sorted[1..], keep);
      assert ([sorted[0]] + Place(row, sorted[1..]))[1..] == Place(row, sorted[1..]);
      if keep(sorted[0]) {
        assert ([sorted[0]] + Select(sorted[1..], keep))[1..] == Select(sorted[1..], keep);
      }
    }
  }

  /** Sorting what is left is the same as dropping from the sorted list. */
  lemma {:induction false} SortedSelect(rows: seq<Row>, keep: Row -> bool)
    requires IdsIncrease(rows)
    ensures Sorted(Select(rows, keep)) == Select(Sorted(rows), keep)
  {
    if rows == [] {
    } else {
      var n := |rows| - 1;
      SortedSelect(rows[..n], keep);
      SortedSorts(rows[..n]);
      SelectPlace(rows[n], Sorted(rows[..n]), keep);
      SelectSnoc(rows[..n], rows[n], keep);
      assert rows == rows[..n] + [rows[n]];
      if keep(rows[n]) {
        var kept := Select(rows[..n], keep);
        assert (kept + [rows[n]])[..|kept|] == kept;
      } else {
        assert Select(rows[..n], keep) + [] == Select(rows[..n], keep);
      }
    }
  }

  lemma {:induction false} SelectPrefix(sorted: seq<Row>, keep: Row -> bool, k: nat)
    requires forall i | 0 <= i < |sorted| :: keep(sorted[i]) <==> i < k
    ensures Select(sorted, keep) == Top(sorted, k)
  {
    if sorted == [] {
    } else {
      if k > 0 {
        SelectPrefix(sorted[1..], keep, k - 1);
        assert Top(sorted, k) == [sorted[0]] + Top(sorted[1..], k - 1);
      } else {
        SelectPrefix(sorted[1..], keep, 0);
      }
    }
  }

  // ----- row numbers are positions -----

  lemma {:induction false} CountSnoc(rows: seq<Row>, row: Row, of: Row)
    ensures CountNewer(rows + [row], of)
            == CountNewer(rows, of) + if SameDevice(row, of) && Newer(row, of) then 1 else 0
  {
    if rows == [] {
      assert rows + [row] == [row];
    } else {
      CountSnoc(rows[1..], row, of);
      assert (rows + [row])[1..] == rows[1..] + [row];
    }
  }

  lemma {:induction false} CountPlace(row: Row, sorted: seq<Row>, of: Row)
    ensures CountNewer(Place(row, sorted), of)
            == CountNewer(sorted, of) + if SameDevice(row, of) && Newer(row, of) then 1 else 0
  {
    if sorted == [] || Newer(row, sorted[0]) {
      assert ([row] + sorted)[1..] == sorted;
    } else {
      CountPlace(row, sorted[1..], of);
      assert ([sorted[0]] + Place(row, sorted[1..]))[1..] == Place(row, sorted[1..]);
    }
  }

  lemma {:induction false} CountSorted(rows: seq<Row>, of: Row)
    ensures CountNewer(Sorted(rows), of) == CountNewer(rows, of)
  {
    if rows == [] {
    } else {
      var n := |rows| - 1;
      CountSorted(rows[..n], of);
      CountPlace(rows[n], Sorted(rows[..n]), of);
      CountSnoc(rows[..n], rows[n], of);
      assert rows == rows[..n] + [rows[n]];
    }
  }

  lemma {:induction false} CountRowsOf(rows: seq<Row>, of: Row)
    ensures CountNewer(RowsOf(rows, of.record.deviceName), of) == CountNewer(rows, of)
  {
    if rows == [] {
    } else {
      CountRowsOf(rows[1..], of);
    }
  }

  lemma {:induction false} CountNone(rows: seq<Row>, of: Row)
    requires forall r | r in rows :: !Newer(r, of)
    ensures CountNewer(rows, of) == 0
  {
    if rows == [] {
    } else {
      CountNone(rows[1..], of);
    }
  }

  lemma {:induction false} CountIsPosition(sorted: seq<Row>, i: nat)
    requires StrictlySorted(sorted) && i < |sorted|
    requires forall r | r in sorted :: SameDevice(r, sorted[i])
    ensures CountNewer(sorted, sorted[i]) == i
  {
    if i == 0 {
      forall r | r in sorted ensures !Newer(r, sorted[0]) {
        var j :| 0 <= j < |sorted| && sorted[j] == r;
      }
      CountNone(sorted, sorted[0]);
    } else {
      assert sorted[0] in sorted;
      CountIsPosition(sorted[1..], i - 1);
    }
  }

  /** The row number of a row is its position in the device's ordered list. */
  lemma RowNumberIsPosition(rows: seq<Row>, name: string, i: nat)
    requires IdsIncrease(rows) && i < |Ordered(rows, name)|
    ensures RowNumber(rows, Ordered(rows, name)[i]) == i + 1
  {
    var mine := RowsOf(rows, name);
    RowsOfMembers(rows, name);
    SortedSorts(mine);
    var row := Sorted(mine)[i];
    assert forall r | r in Sorted(mine) :: r.record.deviceName == name;
    assert row in Sorted(mine);
    CountIsPosition(Sorted(mine), i);
    CountSorted(mine, row);
    CountRowsOf(rows, row);
  }

  // ----- what a cleanup leaves -----

  lemma OrderedAfterSelect(rows: seq<Row>, keep: Row -> bool, name: string, k: nat)
    requires IdsIncrease(rows)
    requires forall r | r in rows && r.record.deviceName == name :: keep(r) <==> RowNumber(rows, r) <= k
    ensures Ordered(Select(rows, keep), name) == Top(Ordered(rows, name), k)
  {
    var mine := RowsOf(rows, name);
    RowsOfMembers(rows, name);
    RowsOfSelect(rows, keep, name);
    SortedSelect(mine, keep);
    SortedSorts(mine);
    forall i | 0 <= i < |Sorted(mine)| ensures keep(Sorted(mine)[i]) <==> i < k {
      RowNumberIsPosition(rows, name, i);
      assert Sorted(mine)[i] in Sorted(mine);
    }
    SelectPrefix(Sorted(mine), keep, k);
  }

  lemma OrderedCount(rows: seq<Row>, name: string)
    requires IdsIncrease(rows)
    ensures |Ordered(rows, name)| == |RowsOf(rows, name)|
  {
    RowsOfMembers(rows, name);
    SortedSorts(RowsOf(rows, name));
  }

  /** Cleaning one device trims its ordered list to the limit and no other list. */
  lemma DeviceCleanupTrims(rows: seq<Row>, name: string, limit: int, other: string)
    requires IdsIncrease(rows)
    ensures Ordered(CleanedDevice(rows, name, limit), other)
            == if limit > 0 && name != "" && other == name then Top(Ordered(rows, name), limit) else Ordered(rows, other)
  {
    if limit > 0 && name != "" {
      var keep := KeepInDevice(rows, name, limit);
      if other == name {
        OrderedAfterSelect(rows, keep, name, limit);
      } else {
        RowsOfSelect(rows, keep, other);
        RowsOfMembers(rows, other);
        SelectEverything(RowsOf(rows, other), keep);
      }
    }
  }

  lemma GlobalCleanupTrims(rows: seq<Row>, limit: int, name: string)
    requires IdsIncrease(rows)
    ensures Ordered(CleanedAll(rows, limit), name)
            == if limit > 0 then Top(Ordered(rows, name), limit) else Ordered(rows, name)
  {
    if limit > 0 {
      OrderedAfterSelect(rows, KeepAnywhere(rows, limit), name, limit);
    }
  }

  lemma {:induction false} CountMonotone(rows: seq<Row>, a: Row, b: Row)
    requires Newer(a, b) && SameDevice(a, b)
    ensures CountNewer(rows, a) <= CountNewer(rows, b)
  {
    if rows == [] {
    } else {
      CountMonotone(rows[1..], a, b);
    }
  }

  lemma {:induction false} CountAfterSelect(rows: seq<Row>, keep: Row -> bool, of: Row)
    requires forall r | r in rows && SameDevice(r, of) && Newer(r, of) :: keep(r)
    ensures CountNewer(Select(rows, keep), of) == CountNewer(rows, of)
  {
    if rows == [] {
    } else {
      CountAfterSelect(rows[1..], keep, of);
    }
  }

  /** Cleanup never renumbers a row it keeps. */
  lemma KeptRowNumber(rows: seq<Row>, name: string, limit: int, row: Row)
    requires row in CleanedDevice(rows, name, limit)
    ensures RowNumber(CleanedDevice(rows, name, limit), row) == RowNumber(rows, row)
  {
    if limit > 0 && name != "" {
      var keep := KeepInDevice(rows, name, limit);
      SelectMembers(rows, keep);
      forall r | r in rows && SameDevice(r, row) && Newer(r, row) ensures keep(r) {
        CountMonotone(rows, r, row);
      }
      CountAfterSelect(rows, keep, row);
    }
  }

  /** Two cleanups of a device amount to one with the smaller limit; with a == b, cleanup is idempotent. */
  lemma DeviceCleanupsCompose(rows: seq<Row>, name: string, a: int, b: int)
    requires a > 0 && b > 0
    ensures CleanedDevice(CleanedDevice(rows, name, a), name, b) == CleanedDevice(rows, name, if a < b then a else b)
  {
    if name != "" {
      var once := CleanedDevice(rows, name, a);
      var smaller := if a < b then a else b;
      SelectMembers(rows, KeepInDevice(rows, name, a));
      forall r | r in once
        ensures KeepInDevice(once, name, b)(r) == KeepInDevice(rows, name, b)(r)
      {
        KeptRowNumber(rows, name, a, r);
      }
      SelectAgrees(once, KeepInDevice(once, name, b), KeepInDevice(rows, name, b));
      SelectTwice(rows, KeepInDevice(rows, name, a), KeepInDevice(rows, name, b), KeepInDevice(rows, name, smaller));
    }
  }

  lemma GlobalCleanupsCompose(rows: seq<Row>, a: int, b: int)
    requires a > 0 && b > 0
    ensures CleanedAll(CleanedAll(rows, a), b) == CleanedAll(rows, if a < b then a else b)
  {
    var once := CleanedAll(rows, a);
    var keep := KeepAnywhere(rows, a);
    SelectMembers(rows, keep);
    forall r | r in once ensures RowNumber(once, r) == RowNumber(rows, r) {
      forall q | q in rows && SameDevice(q, r) && Newer(q, r) ensures keep(q) {
        CountMonotone(rows, q, r);
      }
      CountAfterSelect(rows, keep, r);
    }
    SelectAgrees(once, KeepAnywhere(once, b), KeepAnywhere(rows, b));
    SelectTwice(rows, keep, KeepAnywhere(rows, b), KeepAnywhere(rows, if a < b then a else b));
  }

  // ----- which rows a cleanup deletes -----

  /**
    Of the device's rows at most `limit` are left, all of them from before. Each left row has a larger SvrTime than
    each deleted one, or the same SvrTime and a larger id; and nothing is deleted while there is room.
   */
  ghost predicate KeepsNewest(before: seq<Row>, after: seq<Row>, name: string, limit: nat) {
    && (forall r | r in after && r.record.deviceName == name :: r in before)
    && |RowsOf(after, name)| == (if |RowsOf(before, name)| <= limit then |RowsOf(before, name)| else limit)
    && forall kept, deleted ::
         && kept in after && kept.record.deviceName == name
         && deleted in before && deleted !in after && deleted.record.deviceName == name ==>
         || kept.record.svrTime > deleted.record.svrTime
         || (kept.record.svrTime == deleted.record.svrTime && kept.id > deleted.id)
  }

  lemma NewerTotal(rows: seq<Row>, a: Row, b: Row)
    requires IdsIncrease(rows) && a in rows && b in rows && a != b
    ensures Newer(a, b) || Newer(b, a)
  {
    var i :| 0 <= i < |rows| && rows[i] == a;
    var j :| 0 <= j < |rows| && rows[j] == b;
    assert i < j || j < i;
  }

  lemma KeptIsNewer(rows: seq<Row>, keep: Row -> bool, limit: nat, kept: Row, deleted: Row)
    requires IdsIncrease(rows) && kept in rows && deleted in rows && SameDevice(kept, deleted)
    requires RowNumber(rows, kept) <= limit < RowNumber(rows, deleted)
    ensures Newer(kept, deleted)
  {
    NewerTotal(rows, kept, deleted);
    if Newer(deleted, kept) { CountMonotone(rows, deleted, kept); }
  }

  lemma SelectKeepsNewest(rows: seq<Row>, keep: Row -> bool, name: string, limit: nat)
    requires IdsIncrease(rows)
    requires forall r | r in rows && r.record.deviceName == name :: keep(r) <==> RowNumber(rows, r) <= limit
    ensures KeepsNewest(rows, Select(rows, keep), name, limit)
  {
    hide Select, RowNumber, Ordered, RowsOf, IdsIncrease;
    var after := Select(rows, keep);
    SelectKeepsOrder(rows, keep);
    SelectMembers(rows, keep);
    OrderedAfterSelect(rows, keep, name, limit);
    OrderedCount(rows, name);
    OrderedCount(after, name);
    forall kept, deleted | kept in after && kept.record.deviceName == name
                           && deleted in rows && deleted !in after && deleted.record.deviceName == name
      ensures Newer(kept, deleted)
    {
      KeptIsNewer(rows, keep, limit, kept, deleted);
    }
  }

  lemma DeviceCleanupKeepsNewest(rows: seq<Row>, name: string, limit: int)
    requires IdsIncrease(rows) && limit > 0 && name != ""
    ensures KeepsNewest(rows, CleanedDevice(rows, name, limit), name, limit)
    ensures forall r: Row :: r.record.deviceName != name ==> (r in CleanedDevice(rows, name, limit) <==> r in rows)
  {
    SelectKeepsNewest(rows, KeepInDevice(rows, name, limit), name, limit);
    SelectMembers(rows, KeepInDevice(rows, name, limit));
  }

  lemma GlobalCleanupKeepsNewest(rows: seq<Row>, limit: int)
    requires IdsIncrease(rows) && limit > 0
    ensures forall name :: KeepsNewest(rows, CleanedAll(rows, limit), name, limit)
  {
    forall name ensures KeepsNewest(rows, CleanedAll(rows, limit), name, limit) {
      SelectKeepsNewest(rows, KeepAnywhere(rows, limit), name, limit);
    }
  }

  /** cleanupResourcesForDevice for each name of the list in turn. */
  function CleanedEach(rows: seq<Row>, names: seq<string>, limit: int): seq<Row> {
    if names == [] then rows
    else CleanedDevice(CleanedEach(rows, names[..|names| - 1], limit), names[|names| - 1], limit)
  }

  function KeepNamed(rows: seq<Row>, names: seq<string>, limit: int): Row -> bool {
    (r: Row) => r.record.deviceName in names && r.record.deviceName != "" ==> RowNumber(rows, r) <= limit
  }

  lemma {:induction false} CleanedEachSelects(rows: seq<Row>, names: seq<string>, limit: int)
    requires limit > 0
    ensures CleanedEach(rows, names, limit) == Select(rows, KeepNamed(rows, names, limit))
  {
    if names == [] {
      SelectEverything(rows, KeepNamed(rows, names, limit));
    } else {
      var n := |names| - 1;
      var name := names[n];
      var keep := KeepNamed(rows, names[..n], limit);
      var part := Select(rows, keep);
      CleanedEachSelects(rows, names[..n], limit);
      SelectMembers(rows, keep);
      assert names == names[..n] + [name];
      if name == "" {
        SelectAgrees(rows, keep, KeepNamed(rows, names, limit));
      } else {
        forall r | r in part && r.record.deviceName == name
          ensures RowNumber(part, r) == RowNumber(rows, r)
        {
          forall q | q in rows && SameDevice(q, r) && Newer(q, r) ensures keep(q) {
            CountMonotone(rows, q, r);
          }
          CountAfterSelect(rows, keep, r);
        }
        SelectAgrees(part, KeepInDevice(part, name, limit), KeepInDevice(rows, name, limit));
        SelectTwice(rows, keep, KeepInDevice(rows, name, limit), KeepNamed(rows, names, limit));
      }
    }
  }

  /**
    The global cleanup is the per-device cleanups over the device names, in any order and with any
    repetition, except that only the global one reaches rows whose device name is empty.
   */
  lemma GlobalCleanupIsPerDevice(rows: seq<Row>, names: seq<string>, limit: int)
    requires limit > 0 && forall r | r in rows && r.record.deviceName != "" :: r.record.deviceName in names
    ensures CleanedEach(rows, names, limit) == CleanedAll(rows, limit)
            <==> forall r | r in rows && r.record.deviceName == "" :: RowNumber(rows, r) <= limit
    ensures forall name | name != "" ::
              RowsOf(CleanedEach(rows, names, limit), name) == RowsOf(CleanedAll(rows, limit), name)
    ensures RowsOf(CleanedEach(rows, names, limit), "") == RowsOf(rows, "")
  {
    var each, all := KeepNamed(rows, names, limit), KeepAnywhere(rows, limit);
    CleanedEachSelects(rows, names, limit);
    SelectMembers(rows, each);
    SelectMembers(rows, all);
    if forall r | r in rows && r.record.deviceName == "" :: RowNumber(rows, r) <= limit {
      SelectAgrees(rows, each, all);
    } else {
      var r :| r in rows && r.record.deviceName == "" && RowNumber(rows, r) > limit;
      assert r in Select(rows, each) && r !in Select(rows, all);
    }
    forall name | name != ""
      ensures RowsOf(Select(rows, each), name) == RowsOf(Select(rows, all), name)
    {
      RowsOfSelect(rows, each, name);
      RowsOfSelect(rows, all, name);
      RowsOfMembers(rows, name);
      SelectAgrees(RowsOf(rows, name), each, all);
    }
    RowsOfSelect(rows, each, "");
    RowsOfMembers(rows, "");
    SelectEverything(RowsOf(rows, ""), each);
  }

  // ----- what /latest answers -----

  /**
    The records of the device's newest rows: largest SvrTime first and, among equal ones, largest id first. Rows are
    left out only when `limit` others are listed, and each of them is older than every listed one.
   */
  ghost predicate ListsNewest(records: seq<ResourceRecord>, picked: seq<Row>, rows: seq<Row>, name: string, limit: nat) {
    && |records| == |picked| && (forall i | 0 <= i < |picked| :: records[i] == picked[i].record)
    && (forall r | r in picked :: r in rows && r.record.deviceName == name)
    && (forall i, j | 0 <= i < j < |picked| ::
          || picked[i].record.svrTime > picked[j].record.svrTime
          || (picked[i].record.svrTime == picked[j].record.svrTime && picked[i].id > picked[j].id))
    && |picked| <= limit
    && (forall left, p | left in rows && left.record.deviceName == name && left !in picked && p in picked ::
          || p.record.svrTime > left.record.svrTime
          || (p.record.svrTime == left.record.svrTime && p.id > left.id))
    && (|picked| < limit ==> forall left | left in rows && left.record.deviceName == name :: left in picked)
  }

  lemma TopIsNewer(sorted: seq<Row>, k: nat, left: Row, p: Row)
    requires StrictlySorted(sorted) && left in sorted && left !in Top(sorted, k) && p in Top(sorted, k)
    ensures Newer(p, left)
  {
    var i :| 0 <= i < |sorted| && sorted[i] == left;
    var j :| 0 <= j < |Top(sorted, k)| && Top(sorted, k)[j] == p;
    assert forall m | 0 <= m < |Top(sorted, k)| :: sorted[m] in Top(sorted, k);
  }

  lemma LatestListsNewest(rows: seq<Row>, name: string)
    requires IdsIncrease(rows)
    ensures ListsNewest(Latest(rows, name), Top(Ordered(rows, name), 100), rows, name, 100)
    ensures |Latest(rows, name)| == if |RowsOf(rows, name)| <= 100 then |RowsOf(rows, name)| else 100
    ensures forall i, j | 0 <= i < j < |Latest(rows, name)| ::
              Latest(rows, name)[i].svrTime >= Latest(rows, name)[j].svrTime
  {
    hide Sorted, RowsOf;
    var sorted := Ordered(rows, name);
    RowsOfMembers(rows, name);
    SortedSorts(RowsOf(rows, name));
    forall left, p | left in sorted && left !in Top(sorted, 100) && p in Top(sorted, 100)
      ensures Newer(p, left)
    {
      TopIsNewer(sorted, 100, left, p);
    }
  }

  // ----- cleanup is invisible to /latest -----

  datatype Table = Table(rows: seq<Row>, nextId: nat)

  function Inserted(t: Table, records: seq<ResourceRecord>): Table {
    Table(t.rows + seq(|records|, i requires 0 <= i < |records| => Row(t.nextId + i, records[i])), t.nextId + |records|)
  }

  datatype Operation =
    | Insert(records: seq<ResourceRecord>)
    | CleanDevice(name: string, limit: int)
    | CleanAll(limit: int)

  function Perform(t: Table, op: Operation): Table {
    match op
    case Insert(records) => Inserted(t, records)
    case CleanDevice(name, limit) => t.(rows := CleanedDevice(t.rows, name, limit))
    case CleanAll(limit) => t.(rows := CleanedAll(t.rows, limit))
  }

  function PerformAll(t: Table, ops: seq<Operation>): Table
    decreases |ops|
  {
    if ops == [] then t else PerformAll(Perform(t, ops[0]), ops[1..])
  }

  lemma {:induction false} PerformAllSnoc(t: Table, ops: seq<Operation>, op: Operation)
    ensures PerformAll(t, []) == t
    ensures PerformAll(t, ops + [op]) == Perform(PerformAll(t, ops), op)
    decreases |ops|
  {
    if ops == [] {
      assert ([op])[1..] == [] && [] + [op] == [op];
    } else {
      PerformAllSnoc(Perform(t, ops[0]), ops[1..], op);
      assert (ops + [op])[1..] == ops[1..] + [op];
    }
  }

  lemma PerformKeepsValid(t: Table, op: Operation)
    requires ValidTable(t.rows, t.nextId)
    ensures ValidTable(Perform(t, op).rows, Perform(t, op).nextId)
  {
    match op
    case Insert(_) =>
    case CleanDevice(device, limit) =>
      SelectMembers(t.rows, KeepInDevice(t.rows, device, limit));
      SelectKeepsOrder(t.rows, KeepInDevice(t.rows, device, limit));
    case CleanAll(limit) =>
      SelectMembers(t.rows, KeepAnywhere(t.rows, limit));
      SelectKeepsOrder(t.rows, KeepAnywhere(t.rows, limit));
  }

  /** The same run with every cleanup left out. */
  function InsertsOnly(ops: seq<Operation>): (inserts: seq<Operation>)
    ensures forall op :: op in inserts <==> op in ops && op.Insert?
  {
    if ops == [] then []
    else if ops[0].Insert? then [ops[0]] + InsertsOnly(ops[1..])
    else InsertsOnly(ops[1..])
  }

  predicate LimitAllows(op: Operation) {
    op.Insert? || op.limit <= 0 || op.limit >= LATEST_LIMIT
  }

  /** The two tables show the same newest rows for every device and will number new rows alike. */
  ghost predicate SameTop(t: Table, h: Table) {
    && ValidTable(t.rows, t.nextId) && ValidTable(h.rows, h.nextId) && t.nextId == h.nextId
    && forall name :: Top(Ordered(t.rows, name), LATEST_LIMIT) == Top(Ordered(h.rows, name), LATEST_LIMIT)
  }

  lemma {:induction false} PlaceTop(row: Row, sorted: seq<Row>, k: nat)
    ensures Top(Place(row, sorted), k) == Top(Place(row, Top(sorted, k)), k)
  {
    if sorted != [] && k > 0 && !Newer(row, sorted[0]) {
      PlaceTop(row, sorted[1..], k - 1);
      assert Top(sorted, k)[1..] == Top(sorted[1..], k - 1);
      assert Top(Place(row, sorted), k) == [sorted[0]] + Top(Place(row, sorted[1..]), k - 1);
    }
  }

  lemma OrderedSnoc(rows: seq<Row>, row: Row, name: string)
    ensures Ordered(rows + [row], name)
            == if row.record.deviceName == name then Place(row, Ordered(rows, name)) else Ordered(rows, name)
  {
    RowsOfSnoc(rows, row, name);
    var mine := RowsOf(rows, name);
    assert (mine + [row])[..|mine|] == mine;
    assert mine + [] == mine;
  }

  lemma {:induction false} InsertKeepsSameTop(t: Table, h: Table, records: seq<ResourceRecord>)
    requires SameTop(t, h)
    ensures SameTop(Inserted(t, records), Inserted(h, records))
  {
    if records == [] {
      assert Inserted(t, []) == t && Inserted(h, []) == h;
    } else {
      var n := |records| - 1;
      InsertKeepsSameTop(t, h, records[..n]);
      var t', h' := Inserted(t, records[..n]), Inserted(h, records[..n]);
      var row := Row(t'.nextId, records[n]);
      assert Inserted(t, records) == Table(t'.rows + [row], t'.nextId + 1);
      assert Inserted(h, records) == Table(h'.rows + [row], h'.nextId + 1);
      forall name
        ensures Top(Ordered(t'.rows + [row], name), LATEST_LIMIT) == Top(Ordered(h'.rows + [row], name), LATEST_LIMIT)
      {
        OrderedSnoc(t'.rows, row, name);
        OrderedSnoc(h'.rows, row, name);
        PlaceTop(row, Ordered(t'.rows, name), LATEST_LIMIT);
        PlaceTop(row, Ordered(h'.rows, name), LATEST_LIMIT);
      }
    }
  }

  lemma CleanupKeepsSameTop(t: Table, h: Table, op: Operation)
    requires SameTop(t, h) && !op.Insert? && LimitAllows(op)
    ensures SameTop(Perform(t, op), h)
  {
    forall name
      ensures Top(Ordered(Perform(t, op).rows, name), LATEST_LIMIT) == Top(Ordered(t.rows, name), LATEST_LIMIT)
    {
      match op
      case CleanDevice(device, limit) => DeviceCleanupTrims(t.rows, device, limit, name);
      case CleanAll(limit) => GlobalCleanupTrims(t.rows, limit, name);
    }
    PerformKeepsValid(t, op);
  }

  lemma {:induction false} RunKeepsSameTop(t: Table, h: Table, ops: seq<Operation>)
    requires SameTop(t, h) && forall op | op in ops :: LimitAllows(op)
    ensures SameTop(PerformAll(t, ops), PerformAll(h, InsertsOnly(ops)))
    decreases |ops|
  {
    if ops == [] {
    } else {
      assert ops[0] in ops;
      if ops[0].Insert? {
        InsertKeepsSameTop(t, h, ops[0].records);
        RunKeepsSameTop(Perform(t, ops[0]), Perform(h, ops[0]), ops[1..]);
        assert ([ops[0]] + InsertsOnly(ops[1..]))[1..] == InsertsOnly(ops[1..]);
      } else {
        CleanupKeepsSameTop(t, h, ops[0]);
        RunKeepsSameTop(Perform(t, ops[0]), h, ops[1..]);
      }
    }
  }

  /** /latest answers as if no cleanup had ever run. */
  lemma {:induction false} CleanupIsInvisible(t: Table, ops: seq<Operation>, name: string)
    requires ValidTable(t.rows, t.nextId) && forall op | op in ops :: LimitAllows(op)
    ensures Latest(PerformAll(t, ops).rows, name) == Latest(PerformAll(t, InsertsOnly(ops)).rows, name)
  {
    RunKeepsSameTop(t, t, ops);
  }

  /** And the limit matters: a device cleanup changes the answer exactly when it cuts below the newest hundred. */
  lemma DeviceCleanupVisibleExactly(rows: seq<Row>, name: string, limit: int)
    requires IdsIncrease(rows)
    ensures Latest(CleanedDevice(rows, name, limit), name) != Latest(rows, name)
            <==> name != "" && 0 < limit < LATEST_LIMIT && |RowsOf(rows, name)| > limit
  {
    DeviceCleanupTrims(rows, name, limit, name);
    OrderedCount(rows, name);
    assert |Latest(rows, name)| == |Top(Ordered(rows, name), LATEST_LIMIT)|;
  }

  // ----- how many rows a device has -----

  lemma RowsOfCons(row: Row, rest: seq<Row>, name: string)
    ensures RowsOf([row] + rest, name) == (if row.record.deviceName == name then [row] else []) + RowsOf(rest, name)
  {
    assert ([row] + rest)[1..] == rest;
  }

  lemma {:induction false} RowsOfAppend(rows: seq<Row>, more: seq<Row>, name: string)
    ensures RowsOf(rows + more, name) == RowsOf(rows, name) + RowsOf(more, name)
  {
    if rows == [] {
      assert rows + more == more;
    } else {
      hide RowsOf;
      RowsOfAppend(rows[1..], more, name);
      assert rows + more == [rows[0]] + (rows[1..] + more) && rows == [rows[0]] + rows[1..];
      RowsOfCons(rows[0], rows[1..], name);
      RowsOfCons(rows[0], rows[1..] + more, name);
      assert [] + RowsOf(rows[1..], name) == RowsOf(rows[1..], name);
      assert [] + (RowsOf(rows[1..], name) + RowsOf(more, name)) == RowsOf(rows[1..], name) + RowsOf(more, name);
    }
  }

  lemma {:induction false} RowsOfAtMost(rows: seq<Row>, name: string)
    ensures |RowsOf(rows, name)| <= |rows|
    ensures (forall r | r in rows :: r.record.deviceName != name) ==> RowsOf(rows, name) == []
  {
    if rows == [] {
    } else {
      RowsOfAtMost(rows[1..], name);
    }
  }

  lemma InsertCount(t: Table, records: seq<ResourceRecord>, name: string)
    ensures |RowsOf(Inserted(t, records).rows, name)| <= |RowsOf(t.rows, name)| + |records|
    ensures (forall r | r in records :: r.deviceName != name)
            ==> RowsOf(Inserted(t, records).rows, name) == RowsOf(t.rows, name)
  {
    var more := Inserted(t, records).rows[|t.rows|..];
    assert Inserted(t, records).rows == t.rows + more;
    RowsOfAppend(t.rows, more, name);
    RowsOfAtMost(more, name);
  }

  lemma CleanupCount(t: Table, op: Operation, name: string)
    requires ValidTable(t.rows, t.nextId) && !op.Insert?
    ensures |RowsOf(Perform(t, op).rows, name)| <= |RowsOf(t.rows, name)|
    ensures op.CleanDevice? && op.name == name && name != "" && op.limit > 0
            ==> |RowsOf(Perform(t, op).rows, name)| <= op.limit
  {
    PerformKeepsValid(t, op);
    OrderedCount(t.rows, name);
    OrderedCount(Perform(t, op).rows, name);
    match op
    case CleanDevice(device, limit) => DeviceCleanupTrims(t.rows, device, limit, name);
    case CleanAll(limit) => GlobalCleanupTrims(t.rows, limit, name);
  }

  // ----- the table in place -----

  /** The old rows stay in front, and one row per record follows with the next ids. */
  ghost predicate AppendsRows(before: Table, after: Table, records: seq<ResourceRecord>) {
    && |after.rows| == |before.rows| + |records| && after.rows[..|before.rows|] == before.rows
    && (forall i | 0 <= i < |records| :: after.rows[|before.rows| + i] == Row(before.nextId + i, records[i]))
    && after.nextId == before.nextId + |records|
  }

  lemma InsertedAppends(t: Table, records: seq<ResourceRecord>)
    ensures AppendsRows(t, Inserted(t, records), records)
  {
  }

  lemma InsertedNext(t: Table, records: seq<ResourceRecord>, i: nat)
    requires i < |records|
    ensures var before, after := Inserted(t, records[..i]), Inserted(t, records[..i + 1]);
            after == Table(before.rows + [Row(before.nextId, records[i])], before.nextId + 1)
  {
  }

  lemma InsertedNothing(t: Table)
    ensures Inserted(t, []) == t
  {
  }

  lemma ValidNext(rows: seq<Row>, nextId: nat, record: ResourceRecord)
    requires ValidTable(rows, nextId)
    ensures ValidTable(rows + [Row(nextId, record)], nextId + 1)
  {
  }

  /** insertResources, getLatestResources and the cleanups of SQLiteManager, each one transaction. */
  class ResourceStore {
    var rows: seq<Row>
    var nextId: nat

    ghost predicate Valid()
      reads this
    {
      ValidTable(rows, nextId)
    }

    ghost function Contents(): Table
      reads this
    {
      Table(rows, nextId)
    }

    constructor ()
      ensures Valid() && Contents() == Table([], 1)
    {
      rows, nextId := [], 1;
    }

    /** A storage error can strike at any row, or at the commit when faultAt == |records|. */
    method InsertResources(records: seq<ResourceRecord>, faultAt: nat) returns (ok: bool)
      requires Valid()
      modifies this
      ensures Valid()
      ensures ok <==> faultAt > |records|
      ensures Contents() == if ok then Inserted(old(Contents()), records) else old(Contents())
      ensures !ok ==> rows == old(rows) && nextId == old(nextId)
      ensures ok ==> AppendsRows(old(Contents()), Contents(), records)
    {
      hide Inserted, ValidTable, AppendsRows;
      var savedRows, savedNext := rows, nextId;
      InsertedAppends(Contents(), records);
      var i := 0;
      InsertedNothing(Contents());
      while i < |records|
        invariant i <= |records| && i <= faultAt
        invariant Contents() == Inserted(Table(savedRows, savedNext), records[..i])
        invariant Valid()
      {
        if i == faultAt {
          rows, nextId := savedRows, savedNext;
          return false;
        }
        InsertedNext(Table(savedRows, savedNext), records, i);
        ValidNext(rows, nextId, records[i]);
        rows, nextId := rows + [Row(nextId, records[i])], nextId + 1;
        i := i + 1;
      }
      assert records[..i] == records;
      if i == faultAt {
        rows, nextId := savedRows, savedNext;
        return false;
      }
      ok := true;
    }

    method GetLatest(name: string) returns (records: seq<ResourceRecord>)
      requires Valid()
      ensures records == Latest(rows, name)
      ensures forall i, j | 0 <= i < j < |records| :: records[i].svrTime >= records[j].svrTime
      ensures |records| == if |RowsOf(rows, name)| <= 100 then |RowsOf(rows, name)| else 100
      ensures exists picked :: ListsNewest(records, picked, rows, name, 100)
    {
      hide ListsNewest, Top, Ordered, RowsOf;
      LatestListsNewest(rows, name);
      var cursor := Top(Ordered(rows, name), LATEST_LIMIT);
      records := [];
      var i := 0;
      while i < |cursor|
        invariant i <= |cursor| && records == Records(cursor[..i])
      {
        records := records + [cursor[i].record];
        i := i + 1;
      }
      assert cursor[..i] == cursor;
      assert ListsNewest(records, cursor, rows, name, 100);
    }

    method CleanupResources(maxRowsPerDevice: int, fails: bool) returns (ok: bool)
      requires Valid()
      modifies this`rows
      ensures Valid() && ok == !fails
      ensures Contents() == if ok then Perform(old(Contents()), CleanAll(maxRowsPerDevice)) else old(Contents())
      ensures if ok && maxRowsPerDevice > 0
              then forall name :: KeepsNewest(old(rows), rows, name, maxRowsPerDevice)
              else rows == old(rows)
    {
      var saved := rows;
      if maxRowsPerDevice > 0 {
        SelectKeepsOrder(rows, KeepAnywhere(rows, maxRowsPerDevice));
        SelectMembers(rows, KeepAnywhere(rows, maxRowsPerDevice));
        GlobalCleanupKeepsNewest(rows, maxRowsPerDevice);
        rows := CleanedAll(rows, maxRowsPerDevice);
      }
      if fails { rows := saved; }
      ok := !fails;
    }

    method CleanupResourcesForDevice(name: string, maxRows: int, fails: bool) returns (ok: bool)
      requires Valid()
      modifies this`rows
      ensures Valid() && ok == !fails
      ensures Contents() == if ok then Perform(old(Contents()), CleanDevice(name, maxRows)) else old(Contents())
      ensures if ok && maxRows > 0 && name != ""
              then KeepsNewest(old(rows), rows, name, maxRows)
                   && forall r: Row :: r.record.deviceName != name ==> (r in rows <==> r in old(rows))
              else rows == old(rows)
    {
      var saved := rows;
      if maxRows > 0 && name != "" {
        SelectKeepsOrder(rows, KeepInDevice(rows, name, maxRows));
        SelectMembers(rows, KeepInDevice(rows, name, maxRows));
        DeviceCleanupKeepsNewest(rows, name, maxRows);
        rows := CleanedDevice(rows, name, maxRows);
      }
      if fails { rows := saved; }
      ok := !fails;
    }
  }
}
