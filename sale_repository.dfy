/**
 * `SaleRepository`: the Sale aggregate over a relational store. Reads fold the
 * flat rows of the Sale/Customer/Branch/SaleItem join into one Sale per id;
 * writes put the sale row and its item rows in one transaction.
 */
module Persistence {
  import opened Common
  import opened Domain

  // ---------------------------------------------------------------- reading

  /** One row of the four-way join: the sale, its customer and branch, and one item (null when absent). */
  datatype JoinRow = JoinRow(sale: Sale, customer: Customer, branch: Branch, item: Option<SaleItem>)

  /** The distinct sale ids of the rows, in the order they are first seen. */
  function SaleIds(rows: seq<JoinRow>): seq<int>
    decreases |rows|
  {
    if rows == [] then []
    else
      var ids := SaleIds(rows[..|rows| - 1]);
      var id := rows[|rows| - 1].sale.id;
      if id in ids then ids else ids + [id]
  }

  /** The first row of a sale, if any row carries its id. */
  function FirstRow(rows: seq<JoinRow>, id: int): Option<JoinRow>
    decreases |rows|
  {
    if rows == [] then None
    else
      var first := FirstRow(rows[..|rows| - 1], id);
      if first.Some? then first
      else if rows[|rows| - 1].sale.id == id then Some(rows[|rows| - 1])
      else None
  }

  /** The non-null items of the rows of a sale, in row order. */
  function ItemsOf(rows: seq<JoinRow>, id: int): seq<SaleItem>
    decreases |rows|
  {
    if rows == [] then []
    else
      var last := rows[|rows| - 1];
      ItemsOf(rows[..|rows| - 1], id) + (if last.sale.id == id && last.item.Some? then [last.item.value] else [])
  }

  /**
   * The sale the fold builds for an id: the sale of its first row, with that row's
   * customer and branch, and the items of all its rows.
   */
  function Folded(rows: seq<JoinRow>, id: int): (r: Option<Sale>)
    ensures r.Some? <==> exists k :: 0 <= k < |rows| && rows[k].sale.id == id
    ensures r.Some? ==> r.value.id == id && r.value.customer.Some? && r.value.branch.Some?
    ensures r.Some? ==> r.value.items == ItemsOf(rows, id)
  {
    SaleIdsMeaning(rows, id);
    match FirstRow(rows, id)
    case None => None
    case Some(first) =>
      FirstRowMeaning(rows, id);
      Some(first.sale.(customer := Some(first.customer), branch := Some(first.branch), items := ItemsOf(rows, id)))
  }

  /** A sale id is listed exactly when some row carries it, and then it has a first row. */
  lemma {:induction false} SaleIdsMeaning(rows: seq<JoinRow>, id: int)
    ensures id in SaleIds(rows) <==> exists k :: 0 <= k < |rows| && rows[k].sale.id == id
    ensures id in SaleIds(rows) <==> FirstRow(rows, id).Some?
    decreases |rows|
  {
    if rows != [] {
      var init := rows[..|rows| - 1];
      SaleIdsMeaning(init, id);
      if exists k :: 0 <= k < |rows| && rows[k].sale.id == id {
        var k :| 0 <= k < |rows| && rows[k].sale.id == id;
        if k < |init| {
          assert init[k] == rows[k];
        }
      }
      if exists k :: 0 <= k < |init| && init[k].sale.id == id {
        var k :| 0 <= k < |init| && init[k].sale.id == id;
        assert rows[k] == init[k];
      }
    }
  }

  /** No sale id is listed twice: the result has one entry per distinct id. */
  lemma {:induction false} SaleIdsDistinct(rows: seq<JoinRow>)
    ensures forall i, j :: 0 <= i < j < |SaleIds(rows)| ==> SaleIds(rows)[i] != SaleIds(rows)[j]
    decreases |rows|
  {
    if rows != [] {
      SaleIdsDistinct(rows[..|rows| - 1]);
    }
  }

  /** The first row of a sale is the earliest row carrying its id. */
  lemma {:induction false} FirstRowMeaning(rows: seq<JoinRow>, id: int)
    requires FirstRow(rows, id).Some?
    ensures exists j :: 0 <= j < |rows| && rows[j] == FirstRow(rows, id).value && rows[j].sale.id == id
                        && forall k :: 0 <= k < j ==> rows[k].sale.id != id
    decreases |rows|
  {
    var init := rows[..|rows| - 1];
    if FirstRow(init, id).Some? {
      FirstRowMeaning(init, id);
      var j :| 0 <= j < |init| && init[j] == FirstRow(init, id).value && init[j].sale.id == id
               && forall k :: 0 <= k < j ==> init[k].sale.id != id;
      assert rows[j] == init[j];
      assert forall k :: 0 <= k < j ==> rows[k] == init[k];
    } else {
      SaleIdsMeaning(init, id);
      assert forall k :: 0 <= k < |init| ==> rows[k] == init[k];
    }
  }

  /** An item belongs to a folded sale exactly when some row of that sale carries it. */
  lemma {:induction false} ItemsOfMeaning(rows: seq<JoinRow>, id: int, item: SaleItem)
    ensures item in ItemsOf(rows, id) <==> exists k :: 0 <= k < |rows| && rows[k].sale.id == id && rows[k].item == Some(item)
    decreases |rows|
  {
    if rows != [] {
      var init := rows[..|rows| - 1];
      ItemsOfMeaning(init, id, item);
      if exists k :: 0 <= k < |rows| && rows[k].sale.id == id && rows[k].item == Some(item) {
        var k :| 0 <= k < |rows| && rows[k].sale.id == id && rows[k].item == Some(item);
        if k < |init| {
          assert init[k] == rows[k];
        }
      }
      if exists k :: 0 <= k < |init| && init[k].sale.id == id && init[k].item == Some(item) {
        var k :| 0 <= k < |init| && init[k].sale.id == id && init[k].item == Some(item);
        assert rows[k] == init[k];
      }
    }
  }

  /** Rows of one sale that carry no item add nothing to it: a sale's items are at most its rows. */
  lemma {:induction false} ItemsOfBound(rows: seq<JoinRow>, id: int)
    ensures |ItemsOf(rows, id)| <= |rows|
    ensures (forall k :: 0 <= k < |rows| ==> rows[k].item.None?) ==> ItemsOf(rows, id) == []
    decreases |rows|
  {
    if rows != [] {
      var init := rows[..|rows| - 1];
      ItemsOfBound(init, id);
      assert forall k :: 0 <= k < |init| ==> init[k] == rows[k];
    }
  }

  /** One step of the fold: how a further row changes the spec functions. */
  lemma FoldStep(rows: seq<JoinRow>, i: nat, id: int)
    requires i < |rows|
    ensures rows[..i + 1][..i] == rows[..i]
    ensures FirstRow(rows[..i + 1], id)
            == if FirstRow(rows[..i], id).Some? then FirstRow(rows[..i], id)
               else if rows[i].sale.id == id then Some(rows[i]) else None
    ensures ItemsOf(rows[..i + 1], id)
            == ItemsOf(rows[..i], id) + (if rows[i].sale.id == id && rows[i].item.Some? then [rows[i].item.value] else [])
  {
    assert rows[..i + 1][..i] == rows[..i];
  }

  /** A sale without rows has no items. */
  lemma {:induction false} NoRowsNoItems(rows: seq<JoinRow>, id: int)
    requires FirstRow(rows, id).None?
    ensures ItemsOf(rows, id) == []
    decreases |rows|
  {
    if rows != [] {
      NoRowsNoItems(rows[..|rows| - 1], id);
    }
  }

  /** One step of the fold on the built sales: a further row opens its sale or extends it. */
  lemma FoldedStep(rows: seq<JoinRow>, i: nat, id: int)
    requires i < |rows|
    ensures id != rows[i].sale.id ==> Folded(rows[..i + 1], id) == Folded(rows[..i], id)
    ensures id == rows[i].sale.id ==>
      var row := rows[i];
      var entry := if Folded(rows[..i], id).Some? then Folded(rows[..i], id).value
                   else row.sale.(customer := Some(row.customer), branch := Some(row.branch), items := []);
      Folded(rows[..i + 1], id) == Some(if row.item.Some? then entry.(items := entry.items + [row.item.value]) else entry)
  {
    FoldStep(rows, i, id);
    if FirstRow(rows[..i], id).None? {
      NoRowsNoItems(rows[..i], id);
    }
    assert ItemsOf(rows[..i], id) + [] == ItemsOf(rows[..i], id);
  }

  // ---------------------------------------------------------------- the store

  /** The statement of a write that the fault oracle can make throw. */
  datatype Step = Open | BeginTransaction | WriteSale | WriteItems | DeleteItems | WriteItem(index: nat) | Commit

  /** The one statement that throws during a call, and the message of its exception. */
  datatype Fault = Fault(step: Step, message: string)

  predicate FailsAt(fault: Option<Fault>, step: Step) {
    fault.Some? && fault.value.step == step
  }

  /** The statements an insert runs: open, begin, the sale row, the item list, commit. */
  predicate InsertStep(step: Step) {
    match step
    case DeleteItems => false
    case WriteItem(_) => false
    case _ => true
  }

  /** The statements an update of a sale with `count` items runs. */
  predicate UpdateStep(step: Step, count: nat) {
    match step
    case WriteItems => false
    case WriteItem(k) => k < count
    case _ => true
  }

  /** The message of opening a connection that is already open. */
  const ConnectionAlreadyOpen := "The connection was not closed. The connection's current state is open."

  /** The message of an item row whose sale row does not exist. */
  const ForeignKeyViolation := "The INSERT statement conflicted with the FOREIGN KEY constraint on SaleItem.SaleId."

  /** The columns of a sale: the navigation properties are not written. */
  function SaleRow(s: Sale): (r: Sale)
    ensures r.customer.None? && r.branch.None? && r.items == []
    ensures r.(customer := s.customer, branch := s.branch, items := s.items) == s
  {
    s.(customer := None, branch := None, items := [])
  }

  /** The columns of an item stored under a row id: the line total is not written and reads back as 0. */
  function ItemRow(item: SaleItem, rowId: int): (r: SaleItem)
    ensures r.id == rowId && r.totalItemValue == 0.0
    ensures r.(id := item.id, totalItemValue := item.totalItemValue) == item
  {
    item.(id := rowId, totalItemValue := 0.0)
  }

  /** The items with their sale id set, as the write stamps them. */
  function Stamp(items: seq<SaleItem>, saleId: int): (r: seq<SaleItem>)
    ensures |r| == |items|
    ensures forall k :: 0 <= k < |items| ==> r[k] == items[k].(saleId := saleId)
  {
    seq(|items|, k requires 0 <= k < |items| => items[k].(saleId := saleId))
  }

  /** The entity as a committed insert leaves it: the new id written back, its items stamped with it. */
  function InsertedAs(entity: Sale, saleId: int): (r: Sale)
    ensures r.id == saleId && |r.items| == |entity.items|
    ensures forall k :: 0 <= k < |r.items| ==> r.items[k] == entity.items[k].(saleId := saleId)
    ensures r.(id := entity.id, items := entity.items) == entity
  {
    entity.(id := saleId, items := Stamp(entity.items, saleId))
  }

  /** The item rows written for a list of items, given the first identity value they receive. */
  function ItemRows(items: seq<SaleItem>, firstId: int): (r: map<int, SaleItem>)
    ensures forall rowId :: rowId in r <==> firstId <= rowId < firstId + |items|
    ensures forall k :: 0 <= k < |items| ==> r[firstId + k] == ItemRow(items[k], firstId + k)
    decreases |items|
  {
    if items == [] then map[]
    else
      var n := |items| - 1;
      assert forall k :: 0 <= k < n ==> items[..n][k] == items[k];
      ItemRows(items[..n], firstId)[firstId + n := ItemRow(items[n], firstId + n)]
  }

  /** The item rows that do not belong to a sale. */
  function ItemsNotOf(rows: map<int, SaleItem>, saleId: int): (r: map<int, SaleItem>)
    ensures forall rowId :: rowId in r <==> rowId in rows && rows[rowId].saleId != saleId
    ensures forall rowId :: rowId in r ==> r[rowId] == rows[rowId]
  {
    map rowId | rowId in rows && rows[rowId].saleId != saleId :: rows[rowId]
  }

  /** The rows of the item table that belong to a sale. */
  function ItemsOfSale(rows: map<int, SaleItem>, saleId: int): (r: map<int, SaleItem>)
    ensures forall rowId :: rowId in r <==> rowId in rows && rows[rowId].saleId == saleId
    ensures forall rowId :: rowId in r ==> r[rowId] == rows[rowId]
  {
    map rowId | rowId in rows && rows[rowId].saleId == saleId :: rows[rowId]
  }

  /** The items as a single-row insert leaves them: each carries the identity value it received. */
  function Numbered(items: seq<SaleItem>, firstId: int): (r: seq<SaleItem>)
    ensures |r| == |items|
    ensures forall k :: 0 <= k < |items| ==> r[k] == items[k].(id := firstId + k)
    decreases |items|
  {
    if items == [] then []
    else
      var n := |items| - 1;
      assert forall k :: 0 <= k < n ==> items[..n][k] == items[k];
      Numbered(items[..n], firstId) + [items[n].(id := firstId + n)]
  }

  /**
   * The store's integrity: keys are the rows' ids and lie below the identity
   * counters, sale rows hold columns only, and every item row references a stored
   * sale (the foreign key SaleItem.SaleId).
   */
  ghost predicate TablesValid(sales: map<int, Sale>, items: map<int, SaleItem>, nextSaleId: int, nextItemId: int) {
    && 0 < nextSaleId && 0 < nextItemId
    && (forall id :: id in sales ==> 0 < id < nextSaleId && sales[id].id == id && sales[id] == SaleRow(sales[id]))
    && (forall rowId :: rowId in items ==>
          0 < rowId < nextItemId && items[rowId].id == rowId && items[rowId].saleId in sales)
  }

  /**
   * A committed insert keeps the store's integrity, the new sale's item rows are
   * exactly the written items, and no other sale gains or loses an item row.
   */
  lemma InsertKeepsTablesValid(sales: map<int, Sale>, items: map<int, SaleItem>, nextSaleId: int, nextItemId: int, entity: Sale)
    requires TablesValid(sales, items, nextSaleId, nextItemId)
    ensures var written := InsertedAs(entity, nextSaleId);
      var sales', items' := sales[nextSaleId := SaleRow(written)], items + ItemRows(written.items, nextItemId);
      && TablesValid(sales', items', nextSaleId + 1, nextItemId + |entity.items|)
      && ItemsOfSale(items', nextSaleId) == ItemRows(written.items, nextItemId)
      && forall saleId :: saleId != nextSaleId ==> ItemsOfSale(items', saleId) == ItemsOfSale(items, saleId)
  {
    var written := InsertedAs(entity, nextSaleId);
    var newRows := ItemRows(written.items, nextItemId);
    var sales', items' := sales[nextSaleId := SaleRow(written)], items + newRows;
    forall rowId | rowId in newRows
      ensures newRows[rowId].id == rowId && newRows[rowId].saleId == nextSaleId
    {
      var k := rowId - nextItemId;
      assert newRows[nextItemId + k] == ItemRow(written.items[k], nextItemId + k);
    }
    assert ItemsOfSale(items', nextSaleId) == newRows;
  }

  /**
   * The exception a full-replace update raises, if any: the first statement that
   * throws, in the order the update runs them. With the sale row missing, the
   * first item insert breaks the foreign key.
   */
  function UpdateFailure(fault: Option<Fault>, saleExists: bool, count: nat): (r: Option<string>)
    ensures r.None? <==> !(fault.Some? && UpdateStep(fault.value.step, count)) && (saleExists || count == 0)
    ensures r.Some? && r.value != ForeignKeyViolation ==> fault.Some? && r.value == fault.value.message
  {
    if FailsAt(fault, WriteSale) || FailsAt(fault, DeleteItems) then Some(fault.value.message)
    else if !saleExists && count > 0 then Some(ForeignKeyViolation)
    else if fault.Some? && UpdateStep(fault.value.step, count) then Some(fault.value.message)
    else None
  }

  /** The exception raised before the `try` of a write: opening an open connection, or the open or the begin failing. */
  function BeforeTransaction(connectionOpen: bool, fault: Option<Fault>): (r: Option<string>)
    ensures r.None? <==> !connectionOpen && !FailsAt(fault, Open) && !FailsAt(fault, BeginTransaction)
  {
    if connectionOpen then Some(ConnectionAlreadyOpen)
    else if FailsAt(fault, Open) || FailsAt(fault, BeginTransaction) then Some(fault.value.message)
    else None
  }

  /** The exception `InsertAsync` raises, if any. */
  function InsertFailure(connectionOpen: bool, fault: Option<Fault>): (r: Option<string>)
    ensures r.None? <==> !connectionOpen && !(fault.Some? && InsertStep(fault.value.step))
    ensures connectionOpen ==> r == Some(ConnectionAlreadyOpen)
    ensures r.Some? && r.value != ConnectionAlreadyOpen ==> fault.Some? && r.value == fault.value.message
  {
    if BeforeTransaction(connectionOpen, fault).Some? then BeforeTransaction(connectionOpen, fault)
    else if fault.Some? && InsertStep(fault.value.step) then Some(fault.value.message)
    else None
  }

  /** The exception `UpdateAsync` raises, if any. */
  function UpdateAsyncFailure(connectionOpen: bool, fault: Option<Fault>, saleExists: bool, count: nat): (r: Option<string>)
    ensures r.None? <==> !connectionOpen && !(fault.Some? && UpdateStep(fault.value.step, count)) && (saleExists || count == 0)
    ensures connectionOpen ==> r == Some(ConnectionAlreadyOpen)
  {
    if BeforeTransaction(connectionOpen, fault).Some? then BeforeTransaction(connectionOpen, fault)
    else UpdateFailure(fault, saleExists, count)
  }

  /**
   * A committed full-replace update keeps the store's integrity, leaves the sale
   * with exactly the re-inserted item rows, and no other sale gains or loses one.
   */
  lemma UpdateKeepsTablesValid(sales: map<int, Sale>, items: map<int, SaleItem>, nextSaleId: int, nextItemId: int, entity: Sale)
    requires TablesValid(sales, items, nextSaleId, nextItemId)
    requires entity.id in sales || entity.items == []
    ensures var sales' := if entity.id in sales then sales[entity.id := SaleRow(entity)] else sales;
      var newRows := ItemRows(Stamp(entity.items, entity.id), nextItemId);
      var items' := ItemsNotOf(items, entity.id) + newRows;
      && TablesValid(sales', items', nextSaleId, nextItemId + |entity.items|)
      && ItemsOfSale(items', entity.id) == newRows
      && forall saleId :: saleId != entity.id ==> ItemsOfSale(items', saleId) == ItemsOfSale(items, saleId)
  {
    var stamped := Stamp(entity.items, entity.id);
    var newRows := ItemRows(stamped, nextItemId);
    var items' := ItemsNotOf(items, entity.id) + newRows;
    forall rowId | rowId in newRows
      ensures newRows[rowId].id == rowId && newRows[rowId].saleId == entity.id
    {
      var k := rowId - nextItemId;
      assert newRows[nextItemId + k] == ItemRow(stamped[k], nextItemId + k);
    }
    assert ItemsOfSale(items', entity.id) == newRows;
  }

  class SaleRepository {
    /** The Sale table: columns only, by id. */
    var sales: map<int, Sale>
    /** The SaleItem table, by row id. */
    var items: map<int, SaleItem>
    /** The next identity values of the two tables; a rolled-back insert still consumes its value. */
    var nextSaleId: int
    var nextItemId: int
    var connectionOpen: bool

    /** Keys match ids and lie below the identity counters; every item row references a stored sale. */
    ghost predicate Valid()
      reads this
    {
      TablesValid(sales, items, nextSaleId, nextItemId)
    }

    /** An empty store behind a closed connection. */
    constructor ()
      ensures Valid()
      ensures sales == map[] && items == map[] && !connectionOpen
    {
      sales, items := map[], map[];
      nextSaleId, nextItemId := 1, 1;
      connectionOpen := false;
    }

    /** Row by id (`GetByIdAsync`): only the columns are read, so a sale comes back without customer, branch or items. */
    function GetById(id: int): (r: Option<Sale>)
      reads this
      requires Valid()
      ensures r.Some? <==> id in sales
      ensures r.Some? ==> r.value.id == id && r.value.customer.None? && r.value.branch.None? && r.value.items == []
    {
      if id in sales then Some(sales[id]) else None
    }

    /** The `catch`/`finally` of a write: restores both tables and closes the connection. */
    method Rollback(snapshotSales: map<int, Sale>, snapshotItems: map<int, SaleItem>, ghost saleFloor: int, ghost itemFloor: int)
      requires TablesValid(snapshotSales, snapshotItems, saleFloor, itemFloor)
      requires saleFloor <= nextSaleId && itemFloor <= nextItemId
      modifies this
      ensures Valid()
      ensures sales == snapshotSales && items == snapshotItems && !connectionOpen
      ensures nextSaleId == old(nextSaleId) && nextItemId == old(nextItemId)
    {
      sales, items := snapshotSales, snapshotItems;
      connectionOpen := false;
    }

    /**
     * Inserts the sale row, then every item stamped with the new sale id, in one
     * transaction, and returns the new id. `written` is the entity as the caller
     * sees it afterwards: its id and its items' sale ids set. On any failure inside
     * the transaction both tables are as before and the failure is raised again.
     */
    method InsertAsync(entity: Sale, fault: Option<Fault>) returns (result: Outcome<int>, written: Sale)
      requires Valid()
      modifies this
      ensures Valid()
      ensures result.Ok? <==> InsertFailure(old(connectionOpen), fault).None?
      ensures result.Ok? ==>
        && result.value == old(nextSaleId)
        && written == InsertedAs(entity, result.value)
        && sales == old(sales)[result.value := SaleRow(written)]
        && items == old(items) + ItemRows(written.items, old(nextItemId))
        && nextSaleId == old(nextSaleId) + 1 && nextItemId == old(nextItemId) + |entity.items|
      ensures result.Raised? ==>
        && sales == old(sales) && items == old(items)
        && Some(result.message) == InsertFailure(old(connectionOpen), fault)
      ensures old(nextSaleId) <= nextSaleId && old(nextItemId) <= nextItemId
      ensures connectionOpen <==> old(connectionOpen) || FailsAt(fault, BeginTransaction)
    {
      written := entity;
      if connectionOpen {
        return Raised(ConnectionAlreadyOpen), written;
      }
      if FailsAt(fault, Open) {
        return Raised(fault.value.message), written;
      }
      connectionOpen := true;
      if FailsAt(fault, BeginTransaction) {
        // the transaction is begun outside the `try`: the `finally` that closes the connection never runs
        return Raised(fault.value.message), written;
      }
      result, written := InsertTransaction(entity, fault);
    }

    /**
     * The `try`/`catch`/`finally` of `InsertAsync`, entered with the connection open and
     * the transaction begun: the sale row, then the stamped items, then the commit;
     * the first statement that throws rolls both tables back. The connection is closed on both exits.
     */
    method InsertTransaction(entity: Sale, fault: Option<Fault>) returns (result: Outcome<int>, written: Sale)
      requires Valid() && connectionOpen
      modifies this
      ensures Valid() && !connectionOpen
      ensures result.Ok? <==> !(FailsAt(fault, WriteSale) || FailsAt(fault, WriteItems) || FailsAt(fault, Commit))
      ensures result.Ok? ==>
        && result.value == old(nextSaleId)
        && written == InsertedAs(entity, result.value)
        && sales == old(sales)[result.value := SaleRow(written)]
        && items == old(items) + ItemRows(written.items, old(nextItemId))
        && nextSaleId == old(nextSaleId) + 1 && nextItemId == old(nextItemId) + |entity.items|
      ensures result.Raised? ==> sales == old(sales) && items == old(items) && result.message == fault.value.message
      ensures old(nextSaleId) <= nextSaleId && old(nextItemId) <= nextItemId
    {
      var snapshotSales, snapshotItems, saleId := sales, items, nextSaleId;
      var failed;
      failed, written := InsertStatements(entity, fault);
      if failed {
        // catch: roll back and rethrow; finally: close
        Rollback(snapshotSales, snapshotItems, old(nextSaleId), old(nextItemId));
        result := Raised(fault.value.message);
      } else {
        connectionOpen := false;
        InsertKeepsTablesValid(snapshotSales, snapshotItems, saleId, old(nextItemId), entity);
        result := Ok(saleId);
      }
    }

    /**
     * The `try` block of `InsertAsync`: the sale row, the id written back and
     * stamped on the items, the item rows, the commit. The statement that throws
     * skips the rest of the block, so `failed` tells whether one did.
     */
    method InsertStatements(entity: Sale, fault: Option<Fault>) returns (failed: bool, written: Sale)
      modifies this
      ensures connectionOpen == old(connectionOpen)
      ensures failed <==> FailsAt(fault, WriteSale) || FailsAt(fault, WriteItems) || FailsAt(fault, Commit)
      ensures !failed ==>
        && written == InsertedAs(entity, old(nextSaleId))
        && sales == old(sales)[old(nextSaleId) := SaleRow(written)]
        && items == old(items) + ItemRows(written.items, old(nextItemId))
        && nextSaleId == old(nextSaleId) + 1 && nextItemId == old(nextItemId) + |entity.items|
      ensures old(nextSaleId) <= nextSaleId && old(nextItemId) <= nextItemId
    {
      written := entity;
      failed := FailsAt(fault, WriteSale);
      if !failed {
        written := InsertedAs(entity, nextSaleId);
        sales := sales[nextSaleId := SaleRow(written)];
        nextSaleId := nextSaleId + 1;
        failed := FailsAt(fault, WriteItems);
        if !failed {
          items := items + ItemRows(written.items, nextItemId);
          nextItemId := nextItemId + |written.items|;
          failed := FailsAt(fault, Commit);
        }
      }
    }

    /**
     * Overwrites the sale row, deletes every item row of the sale and inserts the
     * entity's items one by one, each stamped with the sale id, in one transaction.
     * The repository never reports `false`: it either returns `true` or raises.
     * `written` is the entity as the caller sees it afterwards: its items carry the
     * sale id and the identity value each single-row insert wrote back.
     */
    method UpdateAsync(entity: Sale, fault: Option<Fault>) returns (result: Outcome<bool>, written: Sale)
      requires Valid()
      modifies this
      ensures Valid()
      ensures result.Ok? ==> result.value
      ensures result == match UpdateAsyncFailure(old(connectionOpen), fault, entity.id in old(sales), |entity.items|)
                        case None => Ok(true)
                        case Some(message) => Raised(message)
      ensures result.Ok? ==>
        && sales == (if entity.id in old(sales) then old(sales)[entity.id := SaleRow(entity)] else old(sales))
        && items == ItemsNotOf(old(items), entity.id) + ItemRows(Stamp(entity.items, entity.id), old(nextItemId))
        && written == entity.(items := Numbered(Stamp(entity.items, entity.id), old(nextItemId)))
        && nextSaleId == old(nextSaleId) && nextItemId == old(nextItemId) + |entity.items|
      ensures result.Raised? ==> sales == old(sales) && items == old(items)
      ensures old(nextSaleId) <= nextSaleId && old(nextItemId) <= nextItemId
      ensures connectionOpen <==> old(connectionOpen) || FailsAt(fault, BeginTransaction)
    {
      written := entity;
      if connectionOpen {
        return Raised(ConnectionAlreadyOpen), written;
      }
      if FailsAt(fault, Open) {
        return Raised(fault.value.message), written;
      }
      connectionOpen := true;
      if FailsAt(fault, BeginTransaction) {
        // as in `InsertAsync`, the connection is left open
        return Raised(fault.value.message), written;
      }
      result, written := UpdateTransaction(entity, fault);
    }

    /**
     * The `try`/`catch`/`finally` of `UpdateAsync`: the sale row, the delete, one
     * insert per item, the commit; the first statement that throws rolls both
     * tables back. The connection is closed on both exits.
     */
    method UpdateTransaction(entity: Sale, fault: Option<Fault>) returns (result: Outcome<bool>, written: Sale)
      requires Valid() && connectionOpen
      requires !FailsAt(fault, Open) && !FailsAt(fault, BeginTransaction)
      modifies this
      ensures Valid() && !connectionOpen
      ensures result == match UpdateFailure(fault, entity.id in old(sales), |entity.items|)
                        case None => Ok(true)
                        case Some(message) => Raised(message)
      ensures result.Ok? ==>
        && sales == (if entity.id in old(sales) then old(sales)[entity.id := SaleRow(entity)] else old(sales))
        && items == ItemsNotOf(old(items), entity.id) + ItemRows(Stamp(entity.items, entity.id), old(nextItemId))
        && written == entity.(items := Numbered(Stamp(entity.items, entity.id), old(nextItemId)))
        && nextSaleId == old(nextSaleId) && nextItemId == old(nextItemId) + |entity.items|
      ensures result.Raised? ==> sales == old(sales) && items == old(items)
      ensures nextSaleId == old(nextSaleId) && old(nextItemId) <= nextItemId
    {
      var snapshotSales, snapshotItems := sales, items;
      var failure;
      failure, written := UpdateStatements(entity, fault);
      if failure.Some? {
        // catch: roll back and rethrow; finally: close
        Rollback(snapshotSales, snapshotItems, old(nextSaleId), old(nextItemId));
        result := Raised(failure.value);
      } else {
        connectionOpen := false;
        UpdateKeepsTablesValid(snapshotSales, snapshotItems, nextSaleId, old(nextItemId), entity);
        result := Ok(true);
      }
    }

    /**
     * The `try` block of `UpdateAsync`: overwrite the sale row, delete the sale's
     * item rows, insert the items, commit. The statement that throws skips the rest
     * of the block; its message is returned for the `catch`.
     */
    method UpdateStatements(entity: Sale, fault: Option<Fault>) returns (failure: Option<string>, written: Sale)
      requires !FailsAt(fault, Open) && !FailsAt(fault, BeginTransaction)
      modifies this
      ensures failure == UpdateFailure(fault, entity.id in old(sales), |entity.items|)
      ensures failure.None? ==>
        && sales == (if entity.id in old(sales) then old(sales)[entity.id := SaleRow(entity)] else old(sales))
        && items == ItemsNotOf(old(items), entity.id) + ItemRows(Stamp(entity.items, entity.id), old(nextItemId))
        && written == entity.(items := Numbered(Stamp(entity.items, entity.id), old(nextItemId)))
        && nextItemId == old(nextItemId) + |entity.items|
      ensures nextSaleId == old(nextSaleId) && old(nextItemId) <= nextItemId && connectionOpen == old(connectionOpen)
    {
      var saleExists := entity.id in sales;
      var stamped := Stamp(entity.items, entity.id);
      written := entity;
      failure := None;
      if FailsAt(fault, WriteSale) {
        failure := Some(fault.value.message);
      } else {
        if saleExists {
          sales := sales[entity.id := SaleRow(entity)];
        }
        if FailsAt(fault, DeleteItems) {
          failure := Some(fault.value.message);
        } else {
          items := ItemsNotOf(items, entity.id);
          var writtenItems;
          failure, writtenItems := InsertItemRows(stamped, saleExists, fault);
          if failure.None? {
            written := entity.(items := writtenItems);
            if FailsAt(fault, Commit) {
              failure := Some(fault.value.message);
            }
          }
        }
      }
    }

    /**
     * The `foreach` of `UpdateAsync`: one single-row insert per item, in order, each
     * writing its identity value back. The first insert that throws ends the loop;
     * with the sale row missing that is the first one, on the foreign key.
     */
    method InsertItemRows(stamped: seq<SaleItem>, saleExists: bool, fault: Option<Fault>)
      returns (failure: Option<string>, numbered: seq<SaleItem>)
      modifies this
      ensures sales == old(sales) && nextSaleId == old(nextSaleId) && connectionOpen == old(connectionOpen)
      ensures failure.None? <==>
        (saleExists || stamped == []) && !(fault.Some? && fault.value.step.WriteItem? && fault.value.step.index < |stamped|)
      ensures failure.None? ==>
        && items == old(items) + ItemRows(stamped, old(nextItemId))
        && numbered == Numbered(stamped, old(nextItemId))
        && nextItemId == old(nextItemId) + |stamped|
      ensures failure.Some? ==> failure.value == if saleExists then fault.value.message else ForeignKeyViolation
      ensures old(nextItemId) <= nextItemId
    {
      var firstId := nextItemId;
      // the rows inserted so far; they join the table as the transaction's own writes
      var newRows: map<int, SaleItem> := map[];
      numbered := [];
      var k := 0;
      while k < |stamped|
        invariant 0 <= k <= |stamped|
        invariant sales == old(sales) && items == old(items)
        invariant nextSaleId == old(nextSaleId) && connectionOpen == old(connectionOpen)
        invariant newRows == ItemRows(stamped[..k], firstId)
        invariant numbered == Numbered(stamped[..k], firstId)
        invariant nextItemId == firstId + k
        invariant saleExists || k == 0
        invariant forall j :: 0 <= j < k ==> !FailsAt(fault, WriteItem(j))
      {
        if !saleExists {
          return Some(ForeignKeyViolation), numbered;
        }
        if FailsAt(fault, WriteItem(k)) {
          return Some(fault.value.message), numbered;
        }
        assert stamped[..k + 1][..k] == stamped[..k];
        newRows := newRows[nextItemId := ItemRow(stamped[k], nextItemId)];
        numbered := numbered + [stamped[k].(id := nextItemId)];
        nextItemId := nextItemId + 1;
        k := k + 1;
      }
      assert stamped[..k] == stamped;
      items := items + newRows;
      failure := None;
    }

    /**
     * Folds the rows of the join into one sale per distinct id, in first-seen order:
     * each sale is the one of its first row, with that row's customer and branch,
     * and the non-null items of all its rows in row order.
     */
    method GetBySpecificationWithRelationShipAsync(rows: seq<JoinRow>) returns (result: seq<Sale>)
      ensures |result| == |SaleIds(rows)|
      ensures forall k :: 0 <= k < |result| ==> Some(result[k]) == Folded(rows, SaleIds(rows)[k])
    {
      var salesDictionary: map<int, Sale> := map[];
      // the order the dictionary enumerates its values in: the order of first insertion
      var order: seq<int> := [];
      for i := 0 to |rows|
        invariant order == SaleIds(rows[..i])
        invariant forall id :: id in salesDictionary <==> id in order
        invariant forall k :: 0 <= k < |order| ==> order[k] in salesDictionary
        invariant forall id :: Folded(rows[..i], id) == if id in salesDictionary then Some(salesDictionary[id]) else None
      {
        var row := rows[i];
        assert rows[..i + 1][..i] == rows[..i];
        var saleEntry: Sale;
        if row.sale.id !in salesDictionary {
          saleEntry := row.sale.(customer := Some(row.customer), branch := Some(row.branch), items := []);
          order := order + [row.sale.id];
        } else {
          saleEntry := salesDictionary[row.sale.id];
        }
        if row.item.Some? {
          saleEntry := saleEntry.(items := saleEntry.items + [row.item.value]);
        }
        salesDictionary := salesDictionary[row.sale.id := saleEntry];
        forall id
          ensures Folded(rows[..i + 1], id) == if id in salesDictionary then Some(salesDictionary[id]) else None
        {
          FoldedStep(rows, i, id);
        }
      }
      assert rows[..|rows|] == rows;
      result := seq(|order|, k requires 0 <= k < |order| => salesDictionary[order[k]]);
    }
  }
}
