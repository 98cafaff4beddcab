/** The contents the database builder puts in its three tables, as functions
    of the parsed CSV rows. `inventarioc` and `comprasgalpones` are
    append-only sequences of records. `stock` is a map from its composite
    primary key (code, store) to the quantity, because every insert there is
    an `INSERT OR REPLACE`. The loops that fill the tables are in `Ingest`
    and are proved against these functions. */
module Tables {
  import opened Wrappers
  import opened Text
  import opened Headers
  import opened Coerce

  // ---------------------------------------------------------------------
  // Rows and cells
  // ---------------------------------------------------------------------

  /** A row as the CSV reader yields it: keyed by the RAW field names of
      the file. A name missing from the map is a cell the reader left as
      `None`. */
  type Row = map<string, string>

  /** `(row.get(col) or dflt).strip()`: an absent or empty cell falls back
      to `dflt`, and the result is stripped. */
  function Cell(row: Row, col: string, dflt: string): string {
    PyStrip(if col in row && row[col] != "" then row[col] else dflt)
  }

  /** `_get`: an unresolved optional column reads as "". */
  function Get(row: Row, col: Option<string>): (r: string)
    ensures col.None? ==> r == ""
  {
    if col.None? then "" else Cell(row, col.value, "")
  }

  /** A cell never starts or ends with white space, and a cell whose
      column is absent from the row reads as the stripped default. */
  lemma CellStripped(row: Row, col: string, dflt: string)
    ensures var r := Cell(row, col, dflt);
            r == [] || (!IsPySpace(r[0]) && !IsPySpace(r[|r| - 1]))
    ensures col !in row ==> Cell(row, col, dflt) == PyStrip(dflt)
  {
    PyStripProperties(if col in row && row[col] != "" then row[col] else dflt);
  }

  /** A column missing from the row reads as "" through `_get`. */
  lemma GetMissing(row: Row, col: string)
    requires col !in row
    ensures Get(row, Some(col)) == ""
  {
    assert PyStrip("") == "";
  }

  /** How the reader's field names become the header list the columns are
      resolved against: leading BOMs removed, then stripped. */
  function CleanHeader(h: string): string {
    PyStrip(LStripChar(h, Bom))
  }

  function CleanHeaders(fieldnames: seq<string>): (r: seq<string>)
    ensures |r| == |fieldnames|
    ensures forall i :: 0 <= i < |r| ==> r[i] == CleanHeader(fieldnames[i])
  {
    seq(|fieldnames|, i requires 0 <= i < |fieldnames| => CleanHeader(fieldnames[i]))
  }

  /** A field name that starts with a BOM is not its own cleaned header. */
  lemma CleanHeaderShortens(h: string)
    requires h != [] && h[0] == Bom
    ensures |CleanHeader(h)| < |h|
  {
    var t := LStripChar(h, Bom);
    assert |t| < |h|;
    PyLStripShape(t);
    PyRStripShape(PyLStrip(t));
  }

  // ---------------------------------------------------------------------
  // Column resolution
  // ---------------------------------------------------------------------

  const InvCodeCandidates: seq<string> :=
    ["CodigoBarra", "codigo", "codigobarra", "codigo_barras", "codigodebarras", "barcode", "ean"]
  const InvRefCandidates: seq<string> := ["Referencia", "ref", "reference"]
  const InvNameCandidates: seq<string> :=
    ["NombreProducto", "Nombre", "descripcion", "producto", "nombre_producto",
     "product_name", "productname", "product"]
  const InvRetailCandidates: seq<string> :=
    ["PrecioDetal", "precio_detal", "precioventa", "precio",
     "price_detal", "price", "retail_price", "unit_price"]
  const InvWholesaleCandidates: seq<string> :=
    ["PrecioMayor", "precio_mayor", "mayor", "price_mayor", "wholesale_price"]
  const InvPromoCandidates: seq<string> :=
    ["PrecioPromocion", "promo", "promocion", "preciopromocion",
     "price_promo", "promo_price", "discount_price"]
  const InvStockCandidates: seq<string> :=
    ["ExistenciaPorTienda", "Existencia", "stock", "existencias", "cantidad", "qty", "quantity"]
  const InvStoreCandidates: seq<string> :=
    ["Tienda", "NombreTienda", "sucursal", "almacen", "bodega", "galpon",
     "store_name", "store", "shop", "branch"]

  const ComCodeCandidates: seq<string> := ["CodigoBarra", "codigo", "codigobarra", "barcode", "ean"]
  const ComRefCandidates: seq<string> := ["Referencia", "ref", "reference"]
  const ComNameCandidates: seq<string> :=
    ["NombreProducto", "Nombre", "descripcion", "producto", "product_name", "productname", "product"]
  const ComDocCandidates: seq<string> :=
    ["Documento", "doc", "numdoc", "document", "invoice", "receipt", "doc_number", "documento"]
  const ComQtyCandidates: seq<string> := ["Cantidad", "cantidad", "cant", "qty", "quantity"]
  const ComDateCandidates: seq<string> :=
    ["Fecha", "FechaCompra", "fecha_compra", "fecha", "date", "purchase_date"]

  /** The columns of the inventory file; the three price columns are optional. */
  datatype InvColumns = InvColumns(
    cod: string, ref: string, nom: string,
    pd: Option<string>, pm: Option<string>, pp: Option<string>,
    exi: string, tnd: string)

  /** The columns of the purchases file, all required. */
  datatype ComColumns = ComColumns(
    cod: string, ref: string, nom: string, doc: string, can: string, fec: string)

  /** `try: _find_col(...) except KeyError: None`. */
  function OptionalCol(headers: seq<string>, candidates: seq<string>): (r: Option<string>)
    ensures r.Some? <==> FindCol(headers, candidates).Ok?
    ensures r.Some? ==> r.value in headers
  {
    match FindCol(headers, candidates)
    case Ok(c) => Some(c)
    case Err(_) => None
  }

  predicate OptIn(c: Option<string>, headers: seq<string>) {
    c.Some? ==> c.value in headers
  }

  /** The inventory columns, resolved in the order the builder resolves
      them; the first required column that cannot be found raises. */
  function ResolveInventory(headers: seq<string>): (r: Result<InvColumns, NotFound>)
    ensures r.Ok? ==> (r.value.cod in headers && r.value.ref in headers && r.value.nom in headers
                    && r.value.exi in headers && r.value.tnd in headers
                    && OptIn(r.value.pd, headers) && OptIn(r.value.pm, headers) && OptIn(r.value.pp, headers))
    ensures r.Err? ==> r.error.headers == headers &&
                       r.error.candidates in [InvCodeCandidates, InvRefCandidates, InvNameCandidates,
                                              InvStockCandidates, InvStoreCandidates]
    ensures r.Ok? <==> (FindCol(headers, InvCodeCandidates).Ok? && FindCol(headers, InvRefCandidates).Ok?
                     && FindCol(headers, InvNameCandidates).Ok? && FindCol(headers, InvStockCandidates).Ok?
                     && FindCol(headers, InvStoreCandidates).Ok?)
  {
    var cod := FindCol(headers, InvCodeCandidates);
    var ref := FindCol(headers, InvRefCandidates);
    var nom := FindCol(headers, InvNameCandidates);
    var exi := FindCol(headers, InvStockCandidates);
    var tnd := FindCol(headers, InvStoreCandidates);
    if cod.Err? then Err(cod.error)
    else if ref.Err? then Err(ref.error)
    else if nom.Err? then Err(nom.error)
    else if exi.Err? then Err(exi.error)
    else if tnd.Err? then Err(tnd.error)
    else Ok(InvColumns(cod.value, ref.value, nom.value,
                       OptionalCol(headers, InvRetailCandidates),
                       OptionalCol(headers, InvWholesaleCandidates),
                       OptionalCol(headers, InvPromoCandidates),
                       exi.value, tnd.value))
  }

  /** The purchase columns, in the builder's order. */
  function ResolvePurchases(headers: seq<string>): (r: Result<ComColumns, NotFound>)
    ensures r.Ok? ==> (r.value.cod in headers && r.value.ref in headers && r.value.nom in headers
                    && r.value.doc in headers && r.value.can in headers && r.value.fec in headers)
    ensures r.Err? ==> r.error.headers == headers &&
                       r.error.candidates in [ComCodeCandidates, ComRefCandidates, ComNameCandidates,
                                              ComDocCandidates, ComQtyCandidates, ComDateCandidates]
    ensures r.Ok? <==> (FindCol(headers, ComCodeCandidates).Ok? && FindCol(headers, ComRefCandidates).Ok?
                     && FindCol(headers, ComNameCandidates).Ok? && FindCol(headers, ComDocCandidates).Ok?
                     && FindCol(headers, ComQtyCandidates).Ok? && FindCol(headers, ComDateCandidates).Ok?)
  {
    var cod := FindCol(headers, ComCodeCandidates);
    var ref := FindCol(headers, ComRefCandidates);
    var nom := FindCol(headers, ComNameCandidates);
    var doc := FindCol(headers, ComDocCandidates);
    var can := FindCol(headers, ComQtyCandidates);
    var fec := FindCol(headers, ComDateCandidates);
    if cod.Err? then Err(cod.error)
    else if ref.Err? then Err(ref.error)
    else if nom.Err? then Err(nom.error)
    else if doc.Err? then Err(doc.error)
    else if can.Err? then Err(can.error)
    else if fec.Err? then Err(fec.error)
    else Ok(ComColumns(cod.value, ref.value, nom.value, doc.value, can.value, fec.value))
  }

  // ---------------------------------------------------------------------
  // Records
  // ---------------------------------------------------------------------

  /** A row of `inventarioc`. */
  datatype InvRecord = InvRecord(
    codigoBarra: string, nombre: string, referencia: string,
    precioDetal: string, precioMayor: string, precioPromocion: string, creacion: string)

  /** The primary key of `stock`. */
  datatype StockKey = StockKey(codigoBarra: string, tienda: string)

  /** A row of `stock`. */
  datatype StockRecord = StockRecord(key: StockKey, existencia: int)

  /** A row of `comprasgalpones`. */
  datatype PurchaseRecord = PurchaseRecord(
    nombreGalpon: string, codigoBarra: string, referencia: string, nombre: string,
    documento: string, cantidad: int, fechaCompra: string)

  /** What the inventory loop reads from one row: the trimmed cells of the
      resolved columns and the coerced quantity. */
  datatype InvView = InvView(
    code: string, nombre: string, referencia: string,
    precioDetal: string, precioMayor: string, precioPromocion: string,
    tienda: string, existencia: int)

  /** `_get` of each resolved column of a row, and its quantity. */
  function ReadInventoryRow(cols: InvColumns, row: Row): (v: InvView)
    ensures cols.pd.None? ==> v.precioDetal == ""
    ensures cols.pm.None? ==> v.precioMayor == ""
    ensures cols.pp.None? ==> v.precioPromocion == ""
    ensures cols.cod !in row ==> v.code == ""
  {
    InvView(Get(row, Some(cols.cod)), Get(row, Some(cols.nom)), Get(row, Some(cols.ref)),
            Get(row, cols.pd), Get(row, cols.pm), Get(row, cols.pp),
            Get(row, Some(cols.tnd)), Quantity(row, cols.exi))
  }

  function ReadInventory(cols: InvColumns, rows: seq<Row>): (vs: seq<InvView>)
    ensures |vs| == |rows| && forall i :: 0 <= i < |rows| ==> vs[i] == ReadInventoryRow(cols, rows[i])
  {
    seq(|rows|, i requires 0 <= i < |rows| => ReadInventoryRow(cols, rows[i]))
  }

  /** `int(float((row.get(col) or "0").strip()))`, 0 on any failure. */
  function Quantity(row: Row, col: string): int {
    CoerceInt(Cell(row, col, "0"))
  }

  /** A missing quantity cell counts as "0", so it is 0. */
  lemma QuantityMissing(row: Row, col: string)
    requires col !in row
    ensures Quantity(row, col) == 0
  {
    assert Cell(row, col, "0") == "0" by {
      assert PyStrip("0") == "0";
    }
    assert DigitPrefix("0") == "0";
    assert "0"[..0] == [];
  }

  /** The `inventarioc` record a row contributes when its code is new;
      `CREACION` is always "". */
  function InvRecordOf(v: InvView): InvRecord {
    InvRecord(v.code, v.nombre, v.referencia, v.precioDetal, v.precioMayor, v.precioPromocion, "")
  }

  /** The `stock` record a row emits: only when its code and its store are
      both non-empty. */
  function StockOf(v: InvView): Option<StockRecord> {
    if v.code != "" && v.tienda != "" then Some(StockRecord(StockKey(v.code, v.tienda), v.existencia))
    else None
  }

  /** The `comprasgalpones` record of a purchase row: `NombreGalpon` is "",
      every other cell is read as is, and the quantity is coerced. */
  function PurchaseOf(cols: ComColumns, row: Row): PurchaseRecord {
    PurchaseRecord("", Cell(row, cols.cod, ""), Cell(row, cols.ref, ""), Cell(row, cols.nom, ""),
                   Cell(row, cols.doc, ""), Quantity(row, cols.can), Cell(row, cols.fec, ""))
  }

  // ---------------------------------------------------------------------
  // The tables as functions of the rows
  // ---------------------------------------------------------------------

  /** The codes seen so far: every non-empty code of the rows. */
  function SeenCodes(vs: seq<InvView>): (r: set<string>)
    ensures "" !in r
    ensures forall q :: 0 <= q < |vs| && vs[q].code != "" ==> vs[q].code in r
  {
    if vs == [] then {}
    else
      var c := vs[|vs| - 1].code;
      SeenCodes(vs[..|vs| - 1]) + (if c != "" then {c} else {})
  }

  /** The first row carrying code `c`. */
  function FirstRowWith(vs: seq<InvView>, c: string): (p: nat)
    requires c in SeenCodes(vs)
    ensures p < |vs| && vs[p].code == c
    ensures forall q :: 0 <= q < p ==> vs[q].code != c
  {
    var prefix := vs[..|vs| - 1];
    if c in SeenCodes(prefix) then FirstRowWith(prefix, c) else |vs| - 1
  }

  /** `inventarioc` after the inventory rows: one record per new code, in
      the order the codes first appear. */
  function Inventory(vs: seq<InvView>): seq<InvRecord> {
    if vs == [] then []
    else
      var prefix := vs[..|vs| - 1];
      var c := vs[|vs| - 1].code;
      if c == "" || c in SeenCodes(prefix) then Inventory(prefix)
      else Inventory(prefix) + [InvRecordOf(vs[|vs| - 1])]
  }

  /** The stock records the inventory rows emit, in order. */
  function StockRecords(vs: seq<InvView>): (r: seq<StockRecord>)
    ensures |r| <= |vs|
    ensures forall j :: 0 <= j < |r| ==> r[j].key.codigoBarra != "" && r[j].key.tienda != ""
  {
    if vs == [] then []
    else
      var prev := StockRecords(vs[..|vs| - 1]);
      match StockOf(vs[|vs| - 1])
      case Some(s) => prev + [s]
      case None => prev
  }

  /** `INSERT OR REPLACE` of each record in turn. */
  function Upserts(m: map<StockKey, int>, rs: seq<StockRecord>): map<StockKey, int> {
    if rs == [] then m
    else Upserts(m, rs[..|rs| - 1])[rs[|rs| - 1].key := rs[|rs| - 1].existencia]
  }

  /** `stock` after the inventory rows. */
  function StockTable(vs: seq<InvView>): map<StockKey, int> {
    Upserts(map[], StockRecords(vs))
  }

  /** `comprasgalpones` after the purchase rows: one record per row, in
      order. */
  function Purchases(cols: ComColumns, rows: seq<Row>): (r: seq<PurchaseRecord>)
    ensures |r| == |rows|
    ensures forall i :: 0 <= i < |r| ==> r[i].nombreGalpon == ""
  {
    if rows == [] then []
    else Purchases(cols, rows[..|rows| - 1]) + [PurchaseOf(cols, rows[|rows| - 1])]
  }

  /** The i-th purchase record is read from the i-th row. */
  lemma {:induction false} PurchasesAt(cols: ComColumns, rows: seq<Row>, i: nat)
    requires i < |rows|
    ensures Purchases(cols, rows)[i] == PurchaseOf(cols, rows[i])
  {
    if i < |rows| - 1 {
      PurchasesAt(cols, rows[..|rows| - 1], i);
    }
  }

  /** The concatenation of a sequence of batches. */
  function Flatten<T>(bs: seq<seq<T>>): seq<T> {
    if bs == [] then [] else Flatten(bs[..|bs| - 1]) + bs[|bs| - 1]
  }

  lemma FlattenSnoc<T>(bs: seq<seq<T>>, b: seq<T>)
    ensures Flatten(bs + [b]) == Flatten(bs) + b
  {
    assert (bs + [b])[..|bs|] == bs;
  }

  // ---------------------------------------------------------------------
  // Properties of the tables
  // ---------------------------------------------------------------------

  /** One more inventory row: how each function of the rows grows. */
  lemma InventoryStep(vs: seq<InvView>, k: nat)
    requires k < |vs|
    ensures SeenCodes(vs[..k + 1]) ==
              SeenCodes(vs[..k]) + (if vs[k].code != "" then {vs[k].code} else {})
    ensures Inventory(vs[..k + 1]) ==
              if vs[k].code == "" || vs[k].code in SeenCodes(vs[..k]) then Inventory(vs[..k])
              else Inventory(vs[..k]) + [InvRecordOf(vs[k])]
    ensures StockRecords(vs[..k + 1]) ==
              if StockOf(vs[k]).Some? then StockRecords(vs[..k]) + [StockOf(vs[k]).value]
              else StockRecords(vs[..k])
  {
    assert vs[..k + 1][..k] == vs[..k];
  }

  /** One more purchase row. */
  lemma PurchasesStep(cols: ComColumns, rows: seq<Row>, k: nat)
    requires k < |rows|
    ensures Purchases(cols, rows[..k + 1]) == Purchases(cols, rows[..k]) + [PurchaseOf(cols, rows[k])]
  {
    assert rows[..k + 1][..k] == rows[..k];
  }

  /** `inventarioc` holds exactly one record per distinct non-empty code:
      its codes are distinct, each is a code of some row, and there are as
      many records as distinct codes (this is `inv_count`). */
  lemma {:induction false} InventoryCodes(vs: seq<InvView>)
    ensures forall j :: 0 <= j < |Inventory(vs)| ==> Inventory(vs)[j].codigoBarra in SeenCodes(vs)
    ensures forall j, j' :: 0 <= j < j' < |Inventory(vs)| ==>
              Inventory(vs)[j].codigoBarra != Inventory(vs)[j'].codigoBarra
    ensures |Inventory(vs)| == |SeenCodes(vs)|
  {
    if vs != [] {
      InventoryCodes(vs[..|vs| - 1]);
    }
  }

  /** Each `inventarioc` record is built from the FIRST row carrying its
      code (`CREACION` ""), and the records appear in the order of those
      first rows. */
  lemma {:induction false} InventoryFirstRows(vs: seq<InvView>)
    ensures forall j :: 0 <= j < |Inventory(vs)| ==>
              Inventory(vs)[j].codigoBarra in SeenCodes(vs) &&
              Inventory(vs)[j] == InvRecordOf(vs[FirstRowWith(vs, Inventory(vs)[j].codigoBarra)])
    ensures forall j, j' :: 0 <= j < j' < |Inventory(vs)| ==>
              FirstRowWith(vs, Inventory(vs)[j].codigoBarra) < FirstRowWith(vs, Inventory(vs)[j'].codigoBarra)
  {
    InventoryCodes(vs);
    if vs != [] {
      var prefix := vs[..|vs| - 1];
      InventoryFirstRows(prefix);
      InventoryCodes(prefix);
    }
  }

  /** A row with an empty code adds nothing to either inventory table. */
  lemma EmptyCodeIgnored(vs: seq<InvView>, v: InvView)
    requires v.code == ""
    ensures Inventory(vs + [v]) == Inventory(vs)
    ensures StockRecords(vs + [v]) == StockRecords(vs)
    ensures SeenCodes(vs + [v]) == SeenCodes(vs)
  {
    assert (vs + [v])[..|vs|] == vs;
  }

  /** When every code reads as "", both inventory tables stay empty. */
  lemma {:induction false} NoCodesNoRows(vs: seq<InvView>)
    requires forall i :: 0 <= i < |vs| ==> vs[i].code == ""
    ensures SeenCodes(vs) == {}
    ensures Inventory(vs) == [] && StockRecords(vs) == []
  {
    if vs != [] {
      NoCodesNoRows(vs[..|vs| - 1]);
    }
  }

  /** The header the code column resolves to is a cleaned field name, but
      the rows are keyed by the raw field names. When the code column's
      field name carries a BOM (and its cleaned form is not itself a raw
      field name), no row has that key, every code reads as "", and both
      inventory tables come out empty. */
  lemma BomCodeColumnDropsAllRows(fieldnames: seq<string>, rows: seq<Row>, cols: InvColumns, i: nat)
    requires i < |fieldnames| && fieldnames[i] != [] && fieldnames[i][0] == Bom
    requires cols.cod == CleanHeaders(fieldnames)[i]
    requires cols.cod !in fieldnames
    requires forall r :: 0 <= r < |rows| ==> forall k :: k in rows[r] ==> k in fieldnames
    ensures |CleanHeaders(fieldnames)[i]| < |fieldnames[i]|
    ensures Inventory(ReadInventory(cols, rows)) == [] && StockRecords(ReadInventory(cols, rows)) == []
  {
    CleanHeaderShortens(fieldnames[i]);
    NoCodesNoRows(ReadInventory(cols, rows));
  }

  /** The final quantity of a key is that of the LAST record with the key
      (a replacement, never a sum); every record's key is in the table, the
      table's other keys are the starting ones, and those no record
      mentions keep their value. */
  lemma {:induction false} UpsertsLastWins(m: map<StockKey, int>, rs: seq<StockRecord>)
    ensures forall j :: 0 <= j < |rs| ==> rs[j].key in Upserts(m, rs)
    ensures forall k :: k in Upserts(m, rs) && k !in m ==> exists j :: 0 <= j < |rs| && rs[j].key == k
    ensures forall k :: k in m ==> k in Upserts(m, rs)
    ensures forall j :: 0 <= j < |rs| && (forall j' :: j < j' < |rs| ==> rs[j'].key != rs[j].key) ==>
              Upserts(m, rs)[rs[j].key] == rs[j].existencia
    ensures forall k :: k in m && (forall j :: 0 <= j < |rs| ==> rs[j].key != k) ==> Upserts(m, rs)[k] == m[k]
  {
    if rs != [] {
      var prefix := rs[..|rs| - 1];
      UpsertsLastWins(m, prefix);
      forall k | k in Upserts(m, rs) && k !in m
        ensures exists j :: 0 <= j < |rs| && rs[j].key == k
      {
        if k != rs[|rs| - 1].key {
          var j :| 0 <= j < |prefix| && prefix[j].key == k;
          assert rs[j].key == k;
        }
      }
    }
  }

  /** Upserting two runs of records is upserting their concatenation. */
  lemma {:induction false} UpsertsAppend(m: map<StockKey, int>, a: seq<StockRecord>, b: seq<StockRecord>)
    ensures Upserts(m, a + b) == Upserts(Upserts(m, a), b)
  {
    if b == [] {
      assert a + b == a;
    } else {
      var b' := b[..|b| - 1];
      assert (a + b)[..|a + b| - 1] == a + b';
      UpsertsAppend(m, a, b');
    }
  }

  /** The table never has more keys than records were upserted into it, so
      `stock_count` bounds the number of stock rows from above. */
  lemma {:induction false} UpsertsSize(m: map<StockKey, int>, rs: seq<StockRecord>)
    ensures |Upserts(m, rs).Keys| <= |m.Keys| + |rs|
  {
    if rs != [] {
      var prefix := rs[..|rs| - 1];
      UpsertsSize(m, prefix);
      var before := Upserts(m, prefix);
      assert Upserts(m, rs).Keys == before.Keys + {rs[|rs| - 1].key};
    }
  }

  /** Two records for the same (code, store): `stock_count` is 2, the table
      holds one row, with the second quantity and not the sum. */
  lemma StockReplacesNotSums()
    ensures var rs := [StockRecord(StockKey("A1", "Centro"), 5), StockRecord(StockKey("A1", "Centro"), 3)];
            |rs| == 2 && Upserts(map[], rs) == map[StockKey("A1", "Centro") := 3]
  {
    var rs := [StockRecord(StockKey("A1", "Centro"), 5), StockRecord(StockKey("A1", "Centro"), 3)];
    assert rs[..1] == [rs[0]];
    assert [rs[0]][..0] == [];
  }

  /** `stock` holds, for each key, the quantity of the last emitted record
      with that key; it has no more rows than `stock_count`, and no key
      with an empty code or store. */
  lemma StockTableLastWins(vs: seq<InvView>)
    ensures forall j :: 0 <= j < |StockRecords(vs)| ==> StockRecords(vs)[j].key in StockTable(vs)
    ensures forall j :: (0 <= j < |StockRecords(vs)| &&
                         forall j' :: j < j' < |StockRecords(vs)| ==> StockRecords(vs)[j'].key != StockRecords(vs)[j].key)
              ==> StockTable(vs)[StockRecords(vs)[j].key] == StockRecords(vs)[j].existencia
    ensures |StockTable(vs).Keys| <= |StockRecords(vs)|
    ensures forall k :: k in StockTable(vs) ==> k.codigoBarra != "" && k.tienda != ""
  {
    var rs := StockRecords(vs);
    UpsertsLastWins(map[], rs);
    UpsertsSize(map[], rs);
  }
}
