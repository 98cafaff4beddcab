/** The loops of the database builder that stream parsed rows into the
    tables: first-wins deduplication of inventory codes through a `seen`
    set, batch buffers flushed at `Chunk` tuples and once more at the end
    of the stream, and the row counters it reports. Each loop is proved to
    leave the tables equal to the functions of `Tables`. */
module Ingest {
  import opened Wrappers
  import opened Headers
  import opened Tables

  /** The batch size of every `executemany`. */
  const Chunk: nat := 10000

  /** Every flushed batch is non-empty and holds at most `Chunk` tuples. */
  predicate BatchesSized<T>(bs: seq<seq<T>>) {
    forall i :: 0 <= i < |bs| ==> 1 <= |bs[i]| <= Chunk
  }

  /** The SQLite database, abstracted to the contents of its three tables.
      The ghost logs record each `executemany` batch in the order it ran,
      and every stock tuple upserted. */
  class Database {
    var inventarioc: seq<InvRecord>
    var stock: map<StockKey, int>
    var comprasgalpones: seq<PurchaseRecord>
    ghost var invBatches: seq<seq<InvRecord>>
    ghost var stockBatches: seq<seq<StockRecord>>
    ghost var comBatches: seq<seq<PurchaseRecord>>
    ghost var stockLog: seq<StockRecord>

    /** The freshly created schema: three empty tables. */
    constructor ()
      ensures inventarioc == [] && stock == map[] && comprasgalpones == []
      ensures invBatches == [] && stockBatches == [] && comBatches == [] && stockLog == []
    {
      inventarioc := [];
      stock := map[];
      comprasgalpones := [];
      invBatches := [];
      stockBatches := [];
      comBatches := [];
      stockLog := [];
    }

    /** `executemany(insert_inv_sql, batch)`: a plain `INSERT` of each tuple. */
    method InsertInventory(batch: seq<InvRecord>)
      modifies this
      ensures inventarioc == old(inventarioc) + batch && invBatches == old(invBatches) + [batch]
      ensures Flatten(old(invBatches)) == old(inventarioc) ==> Flatten(invBatches) == inventarioc
      ensures stock == old(stock) && stockBatches == old(stockBatches) && stockLog == old(stockLog)
      ensures comprasgalpones == old(comprasgalpones) && comBatches == old(comBatches)
    {
      FlattenSnoc(invBatches, batch);
      inventarioc := inventarioc + batch;
      invBatches := invBatches + [batch];
    }

    /** `executemany(insert_stock_sql, batch)`: an `INSERT OR REPLACE` of
        each tuple on the key (code, store). */
    method UpsertStock(batch: seq<StockRecord>)
      modifies this
      ensures stock == Upserts(old(stock), batch)
      ensures stockBatches == old(stockBatches) + [batch] && stockLog == old(stockLog) + batch
      ensures old(stock) == Upserts(map[], old(stockLog)) ==> stock == Upserts(map[], stockLog)
      ensures Flatten(old(stockBatches)) == old(stockLog) ==> Flatten(stockBatches) == stockLog
      ensures inventarioc == old(inventarioc) && invBatches == old(invBatches)
      ensures comprasgalpones == old(comprasgalpones) && comBatches == old(comBatches)
    {
      FlattenSnoc(stockBatches, batch);
      UpsertsAppend(map[], stockLog, batch);
      stock := Upserts(stock, batch);
      stockBatches := stockBatches + [batch];
      stockLog := stockLog + batch;
    }

    /** `executemany(insert_com_sql, batch)`: a plain `INSERT` of each tuple. */
    method InsertPurchases(batch: seq<PurchaseRecord>)
      modifies this
      ensures comprasgalpones == old(comprasgalpones) + batch && comBatches == old(comBatches) + [batch]
      ensures Flatten(old(comBatches)) == old(comprasgalpones) ==> Flatten(comBatches) == comprasgalpones
      ensures inventarioc == old(inventarioc) && invBatches == old(invBatches)
      ensures stock == old(stock) && stockBatches == old(stockBatches) && stockLog == old(stockLog)
    {
      FlattenSnoc(comBatches, batch);
      comprasgalpones := comprasgalpones + batch;
      comBatches := comBatches + [batch];
    }
  }

  /** The flush check of the inventory buffer: once it holds `Chunk`
      tuples it is written with `executemany` and cleared. Afterwards it is
      below `Chunk`, and table followed by buffer is unchanged. */
  method FlushInventory(db: Database, batch: seq<InvRecord>) returns (rest: seq<InvRecord>)
    requires |batch| <= Chunk
    modifies db
    ensures |rest| < Chunk
    ensures db.inventarioc + rest == old(db.inventarioc) + batch
    ensures Flatten(old(db.invBatches)) == old(db.inventarioc) ==> Flatten(db.invBatches) == db.inventarioc
    ensures BatchesSized(old(db.invBatches)) ==> BatchesSized(db.invBatches)
    ensures db.stock == old(db.stock) && db.stockBatches == old(db.stockBatches) && db.stockLog == old(db.stockLog)
    ensures db.comprasgalpones == old(db.comprasgalpones) && db.comBatches == old(db.comBatches)
  {
    rest := batch;
    if |batch| >= Chunk {
      db.InsertInventory(batch);
      rest := [];
    }
  }

  /** The flush check of the stock buffer. */
  method FlushStock(db: Database, batch: seq<StockRecord>) returns (rest: seq<StockRecord>)
    requires |batch| <= Chunk
    modifies db
    ensures |rest| < Chunk
    ensures db.stockLog + rest == old(db.stockLog) + batch
    ensures old(db.stock) == Upserts(map[], old(db.stockLog)) ==> db.stock == Upserts(map[], db.stockLog)
    ensures Flatten(old(db.stockBatches)) == old(db.stockLog) ==> Flatten(db.stockBatches) == db.stockLog
    ensures BatchesSized(old(db.stockBatches)) ==> BatchesSized(db.stockBatches)
    ensures db.inventarioc == old(db.inventarioc) && db.invBatches == old(db.invBatches)
    ensures db.comprasgalpones == old(db.comprasgalpones) && db.comBatches == old(db.comBatches)
  {
    rest := batch;
    if |batch| >= Chunk {
      db.UpsertStock(batch);
      rest := [];
    }
  }

  /** The flush check of the purchases buffer. */
  method FlushPurchases(db: Database, batch: seq<PurchaseRecord>) returns (rest: seq<PurchaseRecord>)
    requires |batch| <= Chunk
    modifies db
    ensures |rest| < Chunk
    ensures db.comprasgalpones + rest == old(db.comprasgalpones) + batch
    ensures Flatten(old(db.comBatches)) == old(db.comprasgalpones) ==> Flatten(db.comBatches) == db.comprasgalpones
    ensures BatchesSized(old(db.comBatches)) ==> BatchesSized(db.comBatches)
    ensures db.inventarioc == old(db.inventarioc) && db.invBatches == old(db.invBatches)
    ensures db.stock == old(db.stock) && db.stockBatches == old(db.stockBatches) && db.stockLog == old(db.stockLog)
  {
    rest := batch;
    if |batch| >= Chunk {
      db.InsertPurchases(batch);
      rest := [];
    }
  }

  /** The end-of-stream flush of the inventory buffer: whatever is left,
      if anything, goes in as one last batch. */
  method DrainInventory(db: Database, batch: seq<InvRecord>)
    requires |batch| <= Chunk
    modifies db
    ensures db.inventarioc == old(db.inventarioc) + batch
    ensures Flatten(old(db.invBatches)) == old(db.inventarioc) ==> Flatten(db.invBatches) == db.inventarioc
    ensures BatchesSized(old(db.invBatches)) ==> BatchesSized(db.invBatches)
    ensures db.stock == old(db.stock) && db.stockBatches == old(db.stockBatches) && db.stockLog == old(db.stockLog)
    ensures db.comprasgalpones == old(db.comprasgalpones) && db.comBatches == old(db.comBatches)
  {
    if |batch| > 0 {
      db.InsertInventory(batch);
    }
  }

  /** The end-of-stream flush of the stock buffer. */
  method DrainStock(db: Database, batch: seq<StockRecord>)
    requires |batch| <= Chunk
    modifies db
    ensures db.stockLog == old(db.stockLog) + batch
    ensures old(db.stock) == Upserts(map[], old(db.stockLog)) ==> db.stock == Upserts(map[], db.stockLog)
    ensures Flatten(old(db.stockBatches)) == old(db.stockLog) ==> Flatten(db.stockBatches) == db.stockLog
    ensures BatchesSized(old(db.stockBatches)) ==> BatchesSized(db.stockBatches)
    ensures db.inventarioc == old(db.inventarioc) && db.invBatches == old(db.invBatches)
    ensures db.comprasgalpones == old(db.comprasgalpones) && db.comBatches == old(db.comBatches)
  {
    if |batch| > 0 {
      db.UpsertStock(batch);
    } else {
      assert db.stockLog + batch == db.stockLog;
    }
  }

  /** The end-of-stream flush of the purchases buffer. */
  method DrainPurchases(db: Database, batch: seq<PurchaseRecord>)
    requires |batch| <= Chunk
    modifies db
    ensures db.comprasgalpones == old(db.comprasgalpones) + batch
    ensures Flatten(old(db.comBatches)) == old(db.comprasgalpones) ==> Flatten(db.comBatches) == db.comprasgalpones
    ensures BatchesSized(old(db.comBatches)) ==> BatchesSized(db.comBatches)
    ensures db.inventarioc == old(db.inventarioc) && db.invBatches == old(db.invBatches)
    ensures db.stock == old(db.stock) && db.stockBatches == old(db.stockBatches) && db.stockLog == old(db.stockLog)
  {
    if |batch| > 0 {
      db.InsertPurchases(batch);
    }
  }

  /** The cells the inventory loop reads from row `k`: `_get` of each
      resolved column, and the coerced quantity. */
  method ReadRow(cols: InvColumns, rows: seq<Row>, k: nat) returns (v: InvView)
    requires k < |rows|
    ensures v == ReadInventory(cols, rows)[k]
  {
    v := ReadInventoryRow(cols, rows[k]);
  }

  /** What the inventory loop keeps after `k` rows of the views `vs`: the
      set of codes seen, the tables plus their buffers equal to the tables
      of those rows, buffers below the chunk size, batches that flatten to
      the tables, and the counters. */
  ghost predicate InventoryLoop(db: Database, vs: seq<InvView>, k: nat, seen: set<string>,
                                batchInv: seq<InvRecord>, batchStock: seq<StockRecord>,
                                invCount: nat, stockCount: nat)
    reads db
  {
    && k <= |vs|
    && seen == SeenCodes(vs[..k])
    && db.inventarioc + batchInv == Inventory(vs[..k])
    && db.stockLog + batchStock == StockRecords(vs[..k])
    && db.stock == Upserts(map[], db.stockLog)
    && Flatten(db.invBatches) == db.inventarioc && Flatten(db.stockBatches) == db.stockLog
    && |batchInv| < Chunk && |batchStock| < Chunk
    && BatchesSized(db.invBatches) && BatchesSized(db.stockBatches)
    && invCount == |Inventory(vs[..k])|
    && stockCount == |StockRecords(vs[..k])|
  }

  /** One row of the inventory loop: a row with an empty code is skipped; a
      code not seen before adds its tuple to the inventory buffer; a
      non-empty store adds a stock tuple; then both buffers are flushed when
      full. */
  method InventoryRow(db: Database, ghost vs: seq<InvView>, k: nat, v: InvView, seen: set<string>,
                      batchInv: seq<InvRecord>, batchStock: seq<StockRecord>,
                      invCount: nat, stockCount: nat)
    returns (seen': set<string>, batchInv': seq<InvRecord>, batchStock': seq<StockRecord>,
             invCount': nat, stockCount': nat)
    requires k < |vs| && v == vs[k]
    requires InventoryLoop(db, vs, k, seen, batchInv, batchStock, invCount, stockCount)
    modifies db
    ensures InventoryLoop(db, vs, k + 1, seen', batchInv', batchStock', invCount', stockCount')
    ensures db.comprasgalpones == old(db.comprasgalpones) && db.comBatches == old(db.comBatches)
  {
    InventoryStep(vs, k);
    seen', batchInv', batchStock', invCount', stockCount' := seen, batchInv, batchStock, invCount, stockCount;
    var cod := v.code;
    if cod == "" {
      return;
    }
    if cod !in seen {
      seen' := seen + {cod};
      batchInv' := batchInv + [InvRecord(cod, v.nombre, v.referencia,
                                         v.precioDetal, v.precioMayor, v.precioPromocion, "")];
      invCount' := invCount + 1;
    }
    var tienda := v.tienda;
    var existencia := v.existencia;
    if tienda != "" {
      batchStock' := batchStock + [StockRecord(StockKey(cod, tienda), existencia)];
      stockCount' := stockCount + 1;
    }
    batchInv' := FlushInventory(db, batchInv');
    batchStock' := FlushStock(db, batchStock');
  }

  /** The inventory loop, on a database whose inventory tables are still
      empty. Both tables end up as the functions of `Tables` say; the
      batches, in order, are exactly the appended tuples; `invCount` is the
      number of distinct non-empty codes and `stockCount` the number of
      emitted stock tuples. */
  method IngestInventory(db: Database, cols: InvColumns, rows: seq<Row>) returns (invCount: nat, stockCount: nat)
    requires db.inventarioc == [] && db.invBatches == []
    requires db.stock == map[] && db.stockBatches == [] && db.stockLog == []
    modifies db
    ensures db.inventarioc == Inventory(ReadInventory(cols, rows))
    ensures db.stock == StockTable(ReadInventory(cols, rows))
    ensures Flatten(db.invBatches) == db.inventarioc && BatchesSized(db.invBatches)
    ensures Flatten(db.stockBatches) == db.stockLog == StockRecords(ReadInventory(cols, rows))
    ensures BatchesSized(db.stockBatches)
    ensures invCount == |SeenCodes(ReadInventory(cols, rows))|
    ensures stockCount == |StockRecords(ReadInventory(cols, rows))|
    ensures db.comprasgalpones == old(db.comprasgalpones) && db.comBatches == old(db.comBatches)
  {
    ghost var vs := ReadInventory(cols, rows);
    var seen: set<string> := {};
    var batchInv: seq<InvRecord> := [];
    var batchStock: seq<StockRecord> := [];
    invCount := 0;
    stockCount := 0;
    for k := 0 to |rows|
      invariant InventoryLoop(db, vs, k, seen, batchInv, batchStock, invCount, stockCount)
      invariant db.comprasgalpones == old(db.comprasgalpones) && db.comBatches == old(db.comBatches)
    {
      var v := ReadRow(cols, rows, k);
      seen, batchInv, batchStock, invCount, stockCount :=
        InventoryRow(db, vs, k, v, seen, batchInv, batchStock, invCount, stockCount);
    }
    DrainInventory(db, batchInv);
    DrainStock(db, batchStock);
    assert vs[..|rows|] == vs;
    InventoryCodes(vs);
  }

  /** One row of the purchases loop: the tuple of trimmed cells, with
      `NombreGalpon` "" and the coerced quantity, joins the buffer. */
  method AppendPurchase(table: seq<PurchaseRecord>, batch: seq<PurchaseRecord>, cols: ComColumns, rows: seq<Row>, k: nat)
    returns (batch': seq<PurchaseRecord>)
    requires k < |rows|
    requires table + batch == Purchases(cols, rows[..k])
    ensures batch' == batch + [PurchaseOf(cols, rows[k])]
    ensures table + batch' == Purchases(cols, rows[..k + 1])
  {
    PurchasesStep(cols, rows, k);
    batch' := batch + [PurchaseOf(cols, rows[k])];
  }

  /** The purchases loop, on a database whose purchases table is still
      empty: one tuple per row, in order, with no deduplication; the
      batches, in order, are exactly those tuples, and `comCount` is the
      number of rows. */
  method IngestPurchases(db: Database, cols: ComColumns, rows: seq<Row>) returns (comCount: nat)
    requires db.comprasgalpones == [] && db.comBatches == []
    modifies db
    ensures db.comprasgalpones == Purchases(cols, rows)
    ensures Flatten(db.comBatches) == db.comprasgalpones && BatchesSized(db.comBatches)
    ensures comCount == |rows|
    ensures db.inventarioc == old(db.inventarioc) && db.invBatches == old(db.invBatches)
    ensures db.stock == old(db.stock) && db.stockBatches == old(db.stockBatches) && db.stockLog == old(db.stockLog)
  {
    var batchCom: seq<PurchaseRecord> := [];
    comCount := 0;
    for k := 0 to |rows|
      invariant db.comprasgalpones + batchCom == Purchases(cols, rows[..k])
      invariant Flatten(db.comBatches) == db.comprasgalpones
      invariant |batchCom| < Chunk && BatchesSized(db.comBatches)
      invariant comCount == k
      invariant db.inventarioc == old(db.inventarioc) && db.invBatches == old(db.invBatches)
      invariant db.stock == old(db.stock) && db.stockBatches == old(db.stockBatches) && db.stockLog == old(db.stockLog)
    {
      batchCom := AppendPurchase(db.comprasgalpones, batchCom, cols, rows, k);
      comCount := comCount + 1;
      batchCom := FlushPurchases(db, batchCom);
    }
    DrainPurchases(db, batchCom);
    assert rows[..|rows|] == rows;
  }

  /** The counters `build_db` returns. */
  datatype Counts = Counts(invRows: nat, stockRows: nat, comRows: nat)

  /** `build_db` on already-parsed files: a fresh database, the inventory
      columns resolved against the cleaned field names and the inventory
      loop run, then the same for purchases. A column that cannot be
      resolved ends the build with its `NotFound`; when only a purchase
      column fails, the connection holds the inventory rows, uncommitted.
      The tables here are the connection's view: the commit that would
      make them the file's contents comes only after both loops. */
  method BuildDb(invFieldnames: seq<string>, invRows: seq<Row>, comFieldnames: seq<string>, comRows: seq<Row>)
    returns (db: Database, r: Result<Counts, NotFound>)
    ensures fresh(db)
    ensures r.Ok? <==> (ResolveInventory(CleanHeaders(invFieldnames)).Ok? &&
                        ResolvePurchases(CleanHeaders(comFieldnames)).Ok?)
    ensures ResolveInventory(CleanHeaders(invFieldnames)).Err? ==>
              r == Err(ResolveInventory(CleanHeaders(invFieldnames)).error) &&
              db.inventarioc == [] && db.stock == map[] && db.comprasgalpones == []
    ensures ResolveInventory(CleanHeaders(invFieldnames)).Ok? && ResolvePurchases(CleanHeaders(comFieldnames)).Err? ==>
              var vs := ReadInventory(ResolveInventory(CleanHeaders(invFieldnames)).value, invRows);
              r == Err(ResolvePurchases(CleanHeaders(comFieldnames)).error) &&
              db.inventarioc == Inventory(vs) && db.stock == StockTable(vs) && db.comprasgalpones == []
    ensures r.Ok? ==>
              var vs := ReadInventory(ResolveInventory(CleanHeaders(invFieldnames)).value, invRows);
              var com := ResolvePurchases(CleanHeaders(comFieldnames)).value;
              db.inventarioc == Inventory(vs) && db.stock == StockTable(vs) &&
              db.comprasgalpones == Purchases(com, comRows) &&
              r.value == Counts(|SeenCodes(vs)|, |StockRecords(vs)|, |comRows|)
  {
    db := new Database();
    var invCols := ResolveInventory(CleanHeaders(invFieldnames));
    if invCols.Err? {
      return db, Err(invCols.error);
    }
    var invCount, stockCount := IngestInventory(db, invCols.value, invRows);
    var comCols := ResolvePurchases(CleanHeaders(comFieldnames));
    if comCols.Err? {
      return db, Err(comCols.error);
    }
    var comCount := IngestPurchases(db, comCols.value, comRows);
    r := Ok(Counts(invCount, stockCount, comCount));
  }
}
