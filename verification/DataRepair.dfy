// api/scripts/fix_corrupted_encrypted_data.py: cells that the tenant's key does not open are looked for,
// recovered where another key or plain JSON explains them, and cleared otherwise.

module DataRepair {
  import opened Collections
  import opened JsonExposure

  // ----- the encryption service ------------------------------------------------------------

  /** A decryption: the value, the two kinds of DecryptionError, or any other exception. */
  datatype Decrypted<T> = Plain(value: T) | TagMismatch | OtherFailure | Unexpected

  /**
   * The services the script calls, kept abstract. Encryption draws a nonce; None is an encryption
   * error. `decodedLength` is None for text that is not base64 even after padding.
   */
  datatype Service = Service(
    decryptJson: (string, int) -> Decrypted<Json>,
    decryptData: (string, int) -> Decrypted<string>,
    encryptJson: (Json, int, nat) -> Option<string>,
    isJson: string -> bool,
    decodedLength: string -> Option<nat>)

  predicate Truthy(j: Json) {
    match j
    case Null => false
    case Bool(b) => b
    case Number(x) => x != 0.0
    case Str(text) => text != ""
    case List(items) => items != []
    case Dict(entries) => entries != []
  }

  /** What is encrypted for a tenant opens for that tenant; a falsy value is "encrypted" as the empty string. */
  ghost predicate Lawful(s: Service) {
    forall x, t, n :: s.encryptJson(x, t, n).Some? ==>
      if Truthy(x) then s.encryptJson(x, t, n).value != "" && s.decryptJson(s.encryptJson(x, t, n).value, t) == Plain(x)
      else s.encryptJson(x, t, n).value == ""
  }

  // ----- classification and recovery -------------------------------------------------------

  /** `test_decryption`: Some(true) for corrupted; None when the second attempt raises something unexpected. */
  function TestDecryption(s: Service, data: string, tenant: int): Option<bool> {
    match s.decryptJson(data, tenant)
    case Plain(_) => Some(false)
    case TagMismatch => Some(true)
    case OtherFailure =>
      (match s.decryptData(data, tenant)
       case Plain(_) => Some(false)
       case Unexpected => None
       case _ => Some(true))
    case Unexpected => Some(true)
  }

  const MIN_DECODED: nat := 13
  const TRIED_TENANTS := [1, 2, 3]

  function TryTenants(s: Service, data: string, tenant: int, tenants: seq<int>, nonce: nat): Option<string> {
    if tenants == [] then None
    else if tenants[0] != tenant && s.decryptJson(data, tenants[0]).Plain?
            && s.encryptJson(s.decryptJson(data, tenants[0]).value, tenant, nonce).Some? then
      s.encryptJson(s.decryptJson(data, tenants[0]).value, tenant, nonce)
    else TryTenants(s, data, tenant, tenants[1..], nonce)
  }

  /** `attempt_data_recovery` */
  function Recover(s: Service, data: string, tenant: int, nonce: nat): Option<string> {
    if s.isJson(data) then Some(data)
    else if s.decodedLength(data).None? || s.decodedLength(data).value < MIN_DECODED then None
    else TryTenants(s, data, tenant, TRIED_TENANTS, nonce)
  }

  const REPAIR_TENANT := 1

  /** What a flagged cell is set to: the recovered text, or NULL when there is none or it is empty. */
  function Repaired(s: Service, data: string, nonce: nat): Option<string> {
    match Recover(s, data, REPAIR_TENANT, nonce)
    case Some(text) => if text != "" then Some(text) else None
    case None => None
  }

  /** Another tenant's key opens `data`, and the value re-encrypted for tenant 1 is `text`. */
  ghost predicate Rekeyed(s: Service, data: string, other: int, text: string) {
    && other in {2, 3} && s.decryptJson(data, other).Plain? && Truthy(s.decryptJson(data, other).value)
    && s.decryptJson(text, REPAIR_TENANT) == s.decryptJson(data, other)
  }

  /**
   * A repaired cell is NULL, or its unchanged plain JSON, or a ciphertext that tenant 1 decrypts to the
   * value another tenant's key gave; the last is never flagged again for tenant 1.
   */
  lemma RepairedIs(s: Service, data: string, nonce: nat)
    requires Lawful(s) && data != ""
    ensures match Repaired(s, data, nonce)
            case None => !s.isJson(data)
            case Some(text) =>
              if s.isJson(data) then text == data
              else (Rekeyed(s, data, 2, text) || Rekeyed(s, data, 3, text)) && TestDecryption(s, text, REPAIR_TENANT) == Some(false)
  {
    if !s.isJson(data) && s.decodedLength(data).Some? && s.decodedLength(data).value >= MIN_DECODED {
      TriedInTurn(s, data, nonce);
    }
  }

  lemma TriedInTurn(s: Service, data: string, nonce: nat)
    ensures TryTenants(s, data, REPAIR_TENANT, TRIED_TENANTS, nonce)
         == if s.decryptJson(data, 2).Plain? && s.encryptJson(s.decryptJson(data, 2).value, 1, nonce).Some?
            then s.encryptJson(s.decryptJson(data, 2).value, 1, nonce)
            else if s.decryptJson(data, 3).Plain?
            then s.encryptJson(s.decryptJson(data, 3).value, 1, nonce)
            else None
  {
    var none: seq<int> := [];
    assert TRIED_TENANTS[1..] == [2, 3] && [2, 3][1..] == [3] && [3][1..] == none;
    assert TryTenants(s, data, REPAIR_TENANT, none, nonce) == None;
    assert TryTenants(s, data, REPAIR_TENANT, [3], nonce)
        == if s.decryptJson(data, 3).Plain? then s.encryptJson(s.decryptJson(data, 3).value, 1, nonce) else None;
    assert TryTenants(s, data, REPAIR_TENANT, TRIED_TENANTS, nonce) == TryTenants(s, data, REPAIR_TENANT, [2, 3], nonce);
  }

  /**
   * A cell is cleared exactly when it is neither JSON nor rekeyed: also when another tenant's key opens
   * it to a falsy value such as an empty dict, and also when only tenant 1's own key opens it, which
   * happens in a run for another tenant because the repair always works for tenant 1.
   */
  lemma ClearedIff(s: Service, data: string, nonce: nat)
    requires Lawful(s) && data != ""
    ensures Repaired(s, data, nonce).None?
       <==> !s.isJson(data)
            && (s.decodedLength(data).None? || s.decodedLength(data).value < MIN_DECODED || !Usable(s, data, nonce))
  {
    TriedInTurn(s, data, nonce);
  }

  /** The first of the keys 2 and 3 that opens `data`, and under which it can be re-encrypted, gives a truthy value. */
  predicate Usable(s: Service, data: string, nonce: nat) {
    if s.decryptJson(data, 2).Plain? && s.encryptJson(s.decryptJson(data, 2).value, 1, nonce).Some?
    then Truthy(s.decryptJson(data, 2).value)
    else s.decryptJson(data, 3).Plain? && s.encryptJson(s.decryptJson(data, 3).value, 1, nonce).Some?
         && Truthy(s.decryptJson(data, 3).value)
  }

  /** The text survives the repair: it is plain JSON, or long enough and rekeyed to something non-empty. */
  predicate KeepsText(s: Service, data: string, nonce: nat) {
    s.isJson(data)
    || (s.decodedLength(data).Some? && s.decodedLength(data).value >= MIN_DECODED && Usable(s, data, nonce))
  }

  /** A ciphertext is longer than the scan's threshold, and no other tenant's key authenticates it. */
  ghost predicate Authenticated(s: Service) {
    forall x, t, n :: s.encryptJson(x, t, n).Some? && s.encryptJson(x, t, n).value != "" ==>
      MadeFor(s, s.encryptJson(x, t, n).value, t)
  }

  ghost predicate MadeFor(s: Service, text: string, tenant: int) {
    |text| > MIN_LENGTH && forall other :: other != tenant ==> s.decryptJson(text, other) == TagMismatch
  }

  predicate FlaggedFor(s: Service, tenant: int, cell: Option<string>) {
    LooksEncrypted(cell) && TestDecryption(s, cell.value, tenant) == Some(true)
  }

  /**
   * When a cell flagged in a run for any tenant is flagged again after its repair: plain JSON always is;
   * what has been rekeyed is exactly if the run is not for tenant 1, since the repair rekeys for tenant 1.
   */
  lemma FlaggedAgainIff(s: Service, tenant: int, data: string, nonce: nat)
    requires Lawful(s) && Authenticated(s) && FlaggedFor(s, tenant, Some(data))
    ensures FlaggedFor(s, tenant, Repaired(s, data, nonce))
       <==> s.isJson(data) || (tenant != REPAIR_TENANT && KeepsText(s, data, nonce))
    ensures Repaired(s, data, nonce).Some? <==> KeepsText(s, data, nonce)
  {
    RepairedIs(s, data, nonce);
    ClearedIff(s, data, nonce);
    if !s.isJson(data) && KeepsText(s, data, nonce) {
      RekeyedIsMadeFor(s, data, nonce);
    }
  }

  lemma RekeyedIsMadeFor(s: Service, data: string, nonce: nat)
    requires Lawful(s) && Authenticated(s) && !s.isJson(data) && KeepsText(s, data, nonce)
    ensures Repaired(s, data, nonce).Some? && MadeFor(s, Repaired(s, data, nonce).value, REPAIR_TENANT)
  {
    TriedInTurn(s, data, nonce);
  }

  const STORED := "AAAAAAAAAAAAAAAAAAAAAAAA"
  const REWRITTEN := "BBBBBBBBBBBBBBBBBBBBBBBB"

  /** A service under which `STORED` belongs to tenant 3 and `REWRITTEN` is its value for tenant 1. */
  function ThirdTenantService(): Service {
    Service(
      (data, tenant) =>
        if (data == STORED && tenant == 3) || (data == REWRITTEN && tenant == 1) then Plain(Json.Bool(true)) else TagMismatch,
      (data, tenant) => TagMismatch,
      (x, tenant, nonce) =>
        if !Truthy(x) then Some("") else if x == Json.Bool(true) && tenant == 1 then Some(REWRITTEN) else None,
      data => false,
      data => Some(18))
  }

  /**
   * The repair is tied to tenant 1: in a run for tenant 2 a cell can be flagged, "fixed" for tenant 1,
   * and flagged again by the next run for tenant 2.
   */
  lemma OtherTenantsStayCorrupted()
    ensures var s := ThirdTenantService();
            && Lawful(s) && Authenticated(s)
            && TestDecryption(s, STORED, 2) == Some(true)
            && Repaired(s, STORED, 0) == Some(REWRITTEN)
            && TestDecryption(s, REWRITTEN, 2) == Some(true)
  {
    var s := ThirdTenantService();
    assert STORED[0] != REWRITTEN[0];
    TriedInTurn(s, STORED, 0);
  }

  // ----- scanning --------------------------------------------------------------------------

  /** The tables and columns the script knows. */
  datatype Table = Expenses | Invoices | Users | Tenants
  datatype Column = AnalysisResult | CustomFields | OcrData | EncryptedSettings | EncryptedConfig

  datatype Address = Address(table: Table, id: int, column: Column)

  /** The cells of all tables; NULL is None. */
  type Cells = map<Address, Option<string>>

  datatype Flagged = Flagged(at: Address, data: string)

  datatype TableColumns = TableColumns(table: Table, columns: seq<Column>)

  function Cell(cells: Cells, at: Address): Option<string> {
    if at in cells then cells[at] else None
  }

  predicate Filled(cell: Option<string>) {
    cell.Some? && cell.value != ""
  }

  const ROW_LIMIT: nat := 100
  const MIN_LENGTH: nat := 20

  function RowsWithData(cells: Cells, table: Table, columns: seq<Column>): set<int> {
    set at | at in cells && at.table == table && at.column in columns && Filled(cells[at]) :: at.id
  }

  /** SELECT ... WHERE some column holds text ORDER BY id LIMIT 100 */
  function Window(cells: Cells, table: Table, columns: seq<Column>): (ids: seq<int>)
    ensures |ids| <= ROW_LIMIT && Ascending(ids)
    ensures forall id :: id in ids ==> id in RowsWithData(cells, table, columns)
    ensures |RowsWithData(cells, table, columns)| <= ROW_LIMIT ==>
              forall id :: id in RowsWithData(cells, table, columns) ==> id in ids
  {
    var all := SortedIds(RowsWithData(cells, table, columns));
    if |all| <= ROW_LIMIT then all else all[..ROW_LIMIT]
  }

  predicate LooksEncrypted(cell: Option<string>) {
    cell.Some? && |cell.value| > MIN_LENGTH
  }

  /** The flagged cells up to the first unexpected exception, and whether there was one. */
  datatype Scan = Scan(records: seq<Flagged>, raised: bool)

  function ScanCells(s: Service, tenant: int, cells: Cells, ats: seq<Address>): Scan {
    if ats == [] then Scan([], false)
    else if !LooksEncrypted(Cell(cells, ats[0])) then ScanCells(s, tenant, cells, ats[1..])
    else
      var data := Cell(cells, ats[0]).value;
      match TestDecryption(s, data, tenant)
      case None => Scan([], true)
      case Some(corrupted) =>
        var rest := ScanCells(s, tenant, cells, ats[1..]);
        Scan((if corrupted then [Flagged(ats[0], data)] else []) + rest.records, rest.raised)
  }

  /** One cell of a row: it is passed over, ends the scan, or adds to the records if it is corrupted. */
  lemma ScanOneCell(s: Service, tenant: int, cells: Cells, ats: seq<Address>, c: nat, records: seq<Flagged>)
    requires c < |ats|
    ensures var here, rest := ScanCells(s, tenant, cells, ats[c..]), ScanCells(s, tenant, cells, ats[c + 1..]);
            if !LooksEncrypted(Cell(cells, ats[c])) then here == rest
            else
              var data := Cell(cells, ats[c]).value;
              match TestDecryption(s, data, tenant)
              case None => here == Scan([], true)
              case Some(corrupted) =>
                here.raised == rest.raised
                && records + here.records == (if corrupted then records + [Flagged(ats[c], data)] else records) + rest.records
  {
    assert ats[c..][0] == ats[c] && ats[c..][1..] == ats[c + 1..];
  }

  function RowCells(table: Table, id: int, columns: seq<Column>): seq<Address> {
    seq(|columns|, i requires 0 <= i < |columns| => Address(table, id, columns[i]))
  }

  function TableCells(table: Table, ids: seq<int>, columns: seq<Column>): seq<Address> {
    if ids == [] then [] else RowCells(table, ids[0], columns) + TableCells(table, ids[1..], columns)
  }

  function ScanTable(s: Service, tenant: int, cells: Cells, table: Table, columns: seq<Column>): Scan {
    ScanCells(s, tenant, cells, TableCells(table, Window(cells, table, columns), columns))
  }

  /** Everything a run flags, table by table; `unreadable` are the tables whose query fails. */
  function ScanAll(s: Service, tenant: int, cells: Cells, plan: seq<TableColumns>, unreadable: set<Table>): seq<Flagged> {
    if plan == [] then []
    else
      TableRecords(s, tenant, cells, plan[0], unreadable)
      + ScanAll(s, tenant, cells, plan[1..], unreadable)
  }

  function TableRecords(s: Service, tenant: int, cells: Cells, part: TableColumns, unreadable: set<Table>): seq<Flagged> {
    if part.table in unreadable then [] else ScanTable(s, tenant, cells, part.table, part.columns).records
  }

  /** How many tables record an error: their query fails, or their scan is cut short. */
  function TablesCutShort(s: Service, tenant: int, cells: Cells, plan: seq<TableColumns>, unreadable: set<Table>): nat {
    if |plan| == 0 then 0
    else
      var last := plan[|plan| - 1];
      TablesCutShort(s, tenant, cells, plan[..|plan| - 1], unreadable)
      + (if last.table in unreadable || ScanTable(s, tenant, cells, last.table, last.columns).raised then 1 else 0)
  }

  lemma CutShortOneMore(s: Service, tenant: int, cells: Cells, plan: seq<TableColumns>, t: nat, unreadable: set<Table>)
    requires t < |plan|
    ensures TablesCutShort(s, tenant, cells, plan[..t + 1], unreadable)
         == TablesCutShort(s, tenant, cells, plan[..t], unreadable)
            + (if plan[t].table in unreadable || ScanTable(s, tenant, cells, plan[t].table, plan[t].columns).raised then 1 else 0)
  {
    assert plan[..t + 1][..t] == plan[..t];
  }

  lemma ScanOneTable(s: Service, tenant: int, cells: Cells, plan: seq<TableColumns>, t: nat, unreadable: set<Table>,
                     records: seq<Flagged>)
    requires t < |plan|
    ensures records + ScanAll(s, tenant, cells, plan[t..], unreadable)
         == records + TableRecords(s, tenant, cells, plan[t], unreadable) + ScanAll(s, tenant, cells, plan[t + 1..], unreadable)
  {
    assert plan[t..][1..] == plan[t + 1..];
    FlaggedAssociate(records, TableRecords(s, tenant, cells, plan[t], unreadable), ScanAll(s, tenant, cells, plan[t + 1..], unreadable));
  }

  predicate Corrupted(s: Service, tenant: int, cells: Cells, at: Address) {
    FlaggedFor(s, tenant, Cell(cells, at))
  }

  lemma {:induction false} ScanFinds(s: Service, tenant: int, cells: Cells, ats: seq<Address>, f: Flagged)
    ensures f in ScanCells(s, tenant, cells, ats).records ==>
              f.at in ats && Corrupted(s, tenant, cells, f.at) && Cell(cells, f.at) == Some(f.data)
    ensures !ScanCells(s, tenant, cells, ats).raised ==>
              f.at in ats && Corrupted(s, tenant, cells, f.at) && Cell(cells, f.at) == Some(f.data) ==>
              f in ScanCells(s, tenant, cells, ats).records
  {
    if ats != [] {
      ScanFinds(s, tenant, cells, ats[1..], f);
    }
  }

  lemma {:induction false} ScanKeepsOrder(s: Service, tenant: int, cells: Cells, ats: seq<Address>)
    requires NoDuplicates(ats)
    ensures DistinctCells(ScanCells(s, tenant, cells, ats).records)
  {
    if ats != [] {
      ScanKeepsOrder(s, tenant, cells, ats[1..]);
      var rest := ScanCells(s, tenant, cells, ats[1..]).records;
      forall i | 0 <= i < |rest| ensures rest[i].at != ats[0] {
        ScanFinds(s, tenant, cells, ats[1..], rest[i]);
        var k :| 0 <= k < |ats[1..]| && ats[1..][k] == rest[i].at;
        assert ats[k + 1] == rest[i].at;
      }
    }
  }

  ghost predicate DistinctCells(records: seq<Flagged>) {
    forall i, k :: 0 <= i < k < |records| ==> records[i].at != records[k].at
  }

  lemma {:induction false} InTableCells(table: Table, ids: seq<int>, columns: seq<Column>, at: Address)
    ensures at in TableCells(table, ids, columns) <==> at.table == table && at.id in ids && at.column in columns
  {
    if ids != [] {
      InTableCells(table, ids[1..], columns, at);
      var row := RowCells(table, ids[0], columns);
      assert at in row <==> at.table == table && at.id == ids[0] && at.column in columns by {
        if at.table == table && at.id == ids[0] && at.column in columns {
          var i :| 0 <= i < |columns| && columns[i] == at.column;
          assert row[i] == at;
        }
      }
    }
  }

  lemma {:induction false} TableCellsDistinct(table: Table, ids: seq<int>, columns: seq<Column>)
    requires NoDuplicates(ids) && NoDuplicates(columns)
    ensures NoDuplicates(TableCells(table, ids, columns))
  {
    if ids != [] {
      var row, rest := RowCells(table, ids[0], columns), TableCells(table, ids[1..], columns);
      TableCellsDistinct(table, ids[1..], columns);
      forall i | 0 <= i < |rest| ensures rest[i].id != ids[0] {
        InTableCells(table, ids[1..], columns, rest[i]);
        var k :| 0 <= k < |ids[1..]| && ids[1..][k] == rest[i].id;
        assert ids[k + 1] == rest[i].id;
      }
    }
  }

  ghost predicate DistinctPlan(plan: seq<TableColumns>) {
    && (forall i, k :: 0 <= i < k < |plan| ==> plan[i].table != plan[k].table)
    && (forall i :: 0 <= i < |plan| ==> NoDuplicates(plan[i].columns))
  }

  /** A run looks at this cell. */
  predicate InWindow(cells: Cells, part: TableColumns, at: Address) {
    at.table == part.table && at.column in part.columns && at.id in Window(cells, part.table, part.columns)
  }

  lemma FlaggedInTable(s: Service, tenant: int, cells: Cells, table: Table, columns: seq<Column>, f: Flagged)
    requires f in ScanTable(s, tenant, cells, table, columns).records
    ensures f.at in cells && InWindow(cells, TableColumns(table, columns), f.at)
    ensures Corrupted(s, tenant, cells, f.at) && cells[f.at] == Some(f.data) && |f.data| > MIN_LENGTH
  {
    var ids := Window(cells, table, columns);
    InTableCells(table, ids, columns, f.at);
    ScanFinds(s, tenant, cells, TableCells(table, ids, columns), f);
  }

  /** Only corrupted cells of the planned tables are flagged. */
  lemma {:induction false} FlaggedIsCorrupted(s: Service, tenant: int, cells: Cells, plan: seq<TableColumns>,
                                              unreadable: set<Table>, f: Flagged)
    requires f in ScanAll(s, tenant, cells, plan, unreadable)
    ensures Corrupted(s, tenant, cells, f.at) && f.at in cells && cells[f.at] == Some(f.data) && |f.data| > MIN_LENGTH
    ensures exists i :: 0 <= i < |plan| && InWindow(cells, plan[i], f.at)
  {
    if plan[0].table !in unreadable && f in ScanTable(s, tenant, cells, plan[0].table, plan[0].columns).records {
      FlaggedInTable(s, tenant, cells, plan[0].table, plan[0].columns, f);
      assert plan[0] == TableColumns(plan[0].table, plan[0].columns);
    } else {
      FlaggedIsCorrupted(s, tenant, cells, plan[1..], unreadable, f);
      var i :| 0 <= i < |plan[1..]| && InWindow(cells, plan[1..][i], f.at);
      assert InWindow(cells, plan[i + 1], f.at);
    }
  }

  /** No cell is flagged twice in a run. */
  lemma {:induction false} FlaggedOnce(s: Service, tenant: int, cells: Cells, plan: seq<TableColumns>, unreadable: set<Table>)
    requires DistinctPlan(plan)
    ensures DistinctCells(ScanAll(s, tenant, cells, plan, unreadable))
  {
    if plan != [] {
      var table, columns := plan[0].table, plan[0].columns;
      var first, rest := ScanTable(s, tenant, cells, table, columns).records, ScanAll(s, tenant, cells, plan[1..], unreadable);
      TableCellsDistinct(table, Window(cells, table, columns), columns);
      ScanKeepsOrder(s, tenant, cells, TableCells(table, Window(cells, table, columns), columns));
      FlaggedOnce(s, tenant, cells, plan[1..], unreadable);
      forall i | 0 <= i < |first| ensures first[i].at.table == table {
        FlaggedInTable(s, tenant, cells, table, columns, first[i]);
      }
      forall i | 0 <= i < |rest| ensures rest[i].at.table != table {
        FlaggedIsCorrupted(s, tenant, cells, plan[1..], unreadable, rest[i]);
      }
    }
  }

  // ----- repairing -------------------------------------------------------------------------

  /** Numbers of the records whose UPDATE fails. */
  type Failures = set<nat>

  /** The cells after the first `n` flagged records have been dealt with; record `k` draws nonce `k`. */
  function Fixed(s: Service, cells: Cells, records: seq<Flagged>, n: nat, failures: Failures): Cells
    requires n <= |records|
  {
    if n == 0 then cells
    else
      var before := Fixed(s, cells, records, n - 1, failures);
      if n - 1 in failures then before else before[records[n - 1].at := Repaired(s, records[n - 1].data, n - 1)]
  }

  lemma {:induction false} FixedElsewhere(s: Service, cells: Cells, records: seq<Flagged>, n: nat, failures: Failures, at: Address)
    requires n <= |records| && forall i :: 0 <= i < n ==> records[i].at != at
    ensures var after := Fixed(s, cells, records, n, failures);
            (at in after <==> at in cells) && (at in cells ==> after[at] == cells[at])
  {
    if n > 0 {
      FixedElsewhere(s, cells, records, n - 1, failures, at);
    }
  }

  lemma {:induction false} FixedRecord(s: Service, cells: Cells, records: seq<Flagged>, n: nat, failures: Failures, i: nat)
    requires i < n <= |records| && DistinctCells(records) && records[i].at in cells
    ensures var after := Fixed(s, cells, records, n, failures);
            && records[i].at in after
            && after[records[i].at] == if i in failures then cells[records[i].at] else Repaired(s, records[i].data, i)
  {
    if i == n - 1 {
      FixedElsewhere(s, cells, records, n - 1, failures, records[i].at);
    } else {
      FixedRecord(s, cells, records, n - 1, failures, i);
      assert records[n - 1].at != records[i].at;
    }
  }

  /** Cell by cell: a flagged cell whose update succeeded holds its repair, every other cell is as before. */
  lemma FixedCellByCell(s: Service, cells: Cells, records: seq<Flagged>, n: nat, failures: Failures)
    requires n <= |records| && DistinctCells(records)
    requires forall i :: 0 <= i < |records| ==> records[i].at in cells
    ensures var after := Fixed(s, cells, records, n, failures);
            && (forall i: nat :: i < n ==>
                  records[i].at in after
                  && after[records[i].at] == if i in failures then cells[records[i].at] else Repaired(s, records[i].data, i))
            && (forall at :: (forall i :: 0 <= i < n ==> records[i].at != at) ==>
                  (at in after <==> at in cells) && (at in cells ==> after[at] == cells[at]))
  {
    forall i: nat | i < n
      ensures records[i].at in Fixed(s, cells, records, n, failures)
      ensures Fixed(s, cells, records, n, failures)[records[i].at]
           == if i in failures then cells[records[i].at] else Repaired(s, records[i].data, i)
    {
      FixedRecord(s, cells, records, n, failures, i);
    }
    forall at | forall i :: 0 <= i < n ==> records[i].at != at
      ensures at in Fixed(s, cells, records, n, failures) <==> at in cells
      ensures at in cells ==> Fixed(s, cells, records, n, failures)[at] == cells[at]
    {
      FixedElsewhere(s, cells, records, n, failures, at);
    }
  }

  function CountFailures(failures: Failures, n: nat): nat {
    if n == 0 then 0 else CountFailures(failures, n - 1) + (if n - 1 in failures then 1 else 0)
  }

  /** The table was scanned to its end, so every corrupted cell in its window was flagged. */
  lemma CorruptedInWindowIsFlagged(s: Service, tenant: int, cells: Cells, plan: seq<TableColumns>, t: nat, f: Flagged)
    requires t < |plan| && f.at.table == plan[t].table && f.at.column in plan[t].columns
    requires f.at.id in Window(cells, plan[t].table, plan[t].columns)
    requires !ScanTable(s, tenant, cells, plan[t].table, plan[t].columns).raised
    requires Corrupted(s, tenant, cells, f.at) && Cell(cells, f.at) == Some(f.data)
    ensures f in ScanAll(s, tenant, cells, plan, {})
  {
    var table, columns := plan[t].table, plan[t].columns;
    var ids := Window(cells, table, columns);
    InTableCells(table, ids, columns, f.at);
    ScanFinds(s, tenant, cells, TableCells(table, ids, columns), f);
    InScanAll(s, tenant, cells, plan, {}, t, f);
  }

  /** In a table whose scan raised nothing, exactly the corrupted cells within the row limit are flagged. */
  lemma FlaggedIff(s: Service, tenant: int, cells: Cells, plan: seq<TableColumns>, t: nat, at: Address)
    requires DistinctPlan(plan) && t < |plan| && at.table == plan[t].table && at.column in plan[t].columns
    requires !ScanTable(s, tenant, cells, plan[t].table, plan[t].columns).raised
    ensures !NotFlagged(ScanAll(s, tenant, cells, plan, {}), at)
       <==> InWindow(cells, plan[t], at) && Corrupted(s, tenant, cells, at)
  {
    var records := ScanAll(s, tenant, cells, plan, {});
    if i :| 0 <= i < |records| && records[i].at == at {
      FlaggedIsCorrupted(s, tenant, cells, plan, {}, records[i]);
    }
    if InWindow(cells, plan[t], at) && Corrupted(s, tenant, cells, at) {
      CorruptedInWindowIsFlagged(s, tenant, cells, plan, t, Flagged(at, Cell(cells, at).value));
    }
  }

  /** The cell at `at` was flagged as record `i` and holds its repair. */
  ghost predicate RepairedAsRecord(s: Service, cells: Cells, records: seq<Flagged>, after: Cells, at: Address, i: nat) {
    && i < |records| && records[i].at == at
    && Cell(cells, at) == Some(records[i].data) && |records[i].data| > MIN_LENGTH
    && Cell(after, at) == Repaired(s, records[i].data, i)
  }

  ghost predicate NotFlagged(records: seq<Flagged>, at: Address) {
    forall i :: 0 <= i < |records| ==> records[i].at != at
  }

  /** The cells after an executing run for a tenant without database errors. */
  function AfterRun(s: Service, tenant: int, cells: Cells, plan: seq<TableColumns>): Cells {
    var records := ScanAll(s, tenant, cells, plan, {});
    Fixed(s, cells, records, |records|, {})
  }

  /** Each cell after the run: repaired as some record, or not flagged and untouched. */
  lemma CellAfterRun(s: Service, tenant: int, cells: Cells, plan: seq<TableColumns>, at: Address)
    requires DistinctPlan(plan)
    ensures var records, after := ScanAll(s, tenant, cells, plan, {}), AfterRun(s, tenant, cells, plan);
            && (at in after <==> at in cells)
            && ((exists i: nat :: RepairedAsRecord(s, cells, records, after, at, i))
                || (NotFlagged(records, at) && Cell(after, at) == Cell(cells, at)))
  {
    var records := ScanAll(s, tenant, cells, plan, {});
    forall i: nat | i < |records|
      ensures records[i].at in cells && cells[records[i].at] == Some(records[i].data) && |records[i].data| > MIN_LENGTH
    {
      FlaggedIsCorrupted(s, tenant, cells, plan, {}, records[i]);
    }
    FlaggedOnce(s, tenant, cells, plan, {});
    FixedIsRepaired(s, cells, records, at);
  }

  lemma FixedIsRepaired(s: Service, cells: Cells, records: seq<Flagged>, at: Address)
    requires DistinctCells(records)
    requires forall i: nat :: i < |records| ==>
               records[i].at in cells && cells[records[i].at] == Some(records[i].data) && |records[i].data| > MIN_LENGTH
    ensures var after := Fixed(s, cells, records, |records|, {});
            && (at in after <==> at in cells)
            && ((exists i: nat :: RepairedAsRecord(s, cells, records, after, at, i))
                || (NotFlagged(records, at) && Cell(after, at) == Cell(cells, at)))
  {
    FixedCellByCell(s, cells, records, |records|, {});
    if !NotFlagged(records, at) {
      var i: nat :| i < |records| && records[i].at == at;
      assert RepairedAsRecord(s, cells, records, Fixed(s, cells, records, |records|, {}), at, i);
    }
  }

  /** NULL, or the unchanged plain JSON, or a ciphertext that tenant 1 decrypts to what another tenant's key gave. */
  ghost predicate IsRepair(s: Service, data: string, cell: Option<string>) {
    match cell
    case None => !s.isJson(data)
    case Some(text) => if s.isJson(data) then text == data else Rekeyed(s, data, 2, text) || Rekeyed(s, data, 3, text)
  }

  /**
   * What an executing run for any tenant without database errors does to a cell: nothing if it was not
   * flagged; otherwise it ends as NULL, as its unchanged plain JSON, or as a ciphertext that tenant 1
   * decrypts to what another tenant's key gave.
   */
  lemma RepairOutcome(s: Service, tenant: int, cells: Cells, plan: seq<TableColumns>, at: Address)
    requires Lawful(s) && DistinctPlan(plan)
    ensures var records, after := ScanAll(s, tenant, cells, plan, {}), AfterRun(s, tenant, cells, plan);
            if NotFlagged(records, at) then Cell(after, at) == Cell(cells, at)
            else Cell(cells, at).Some? && IsRepair(s, Cell(cells, at).value, Cell(after, at))
  {
    CellAfterRun(s, tenant, cells, plan, at);
    var records, after := ScanAll(s, tenant, cells, plan, {}), AfterRun(s, tenant, cells, plan);
    if i: nat :| RepairedAsRecord(s, cells, records, after, at, i) {
      RepairedIs(s, records[i].data, i);
    }
  }

  /**
   * A second run for tenant 1 flags in the same table only plain JSON, and cells of rows that were
   * beyond the first run's row limit.
   */
  lemma SecondRunFlags(s: Service, cells: Cells, plan: seq<TableColumns>, t: nat, f: Flagged)
    requires Lawful(s) && DistinctPlan(plan) && t < |plan|
    requires !ScanTable(s, REPAIR_TENANT, cells, plan[t].table, plan[t].columns).raised
    requires f in ScanTable(s, REPAIR_TENANT, AfterRun(s, REPAIR_TENANT, cells, plan), plan[t].table, plan[t].columns).records
    ensures s.isJson(f.data) || f.at.id !in Window(cells, plan[t].table, plan[t].columns)
    ensures |RowsWithData(cells, plan[t].table, plan[t].columns)| <= ROW_LIMIT ==> s.isJson(f.data)
  {
    var records, after := ScanAll(s, REPAIR_TENANT, cells, plan, {}), AfterRun(s, REPAIR_TENANT, cells, plan);
    FlaggedInTable(s, REPAIR_TENANT, after, plan[t].table, plan[t].columns, f);
    CellAfterRun(s, REPAIR_TENANT, cells, plan, f.at);
    if i: nat :| RepairedAsRecord(s, cells, records, after, f.at, i) {
      RepairedIs(s, records[i].data, i);
    } else {
      UntouchedWasBeyondLimit(s, cells, plan, t, f);
    }
  }

  /** The row limit cuts off by rank: a row is looked at exactly when fewer than 100 rows with data come before it. */
  lemma InWindowIff(cells: Cells, table: Table, columns: seq<Column>, id: int)
    ensures id in Window(cells, table, columns)
       <==> id in RowsWithData(cells, table, columns)
            && |set row | row in RowsWithData(cells, table, columns) && row < id| < ROW_LIMIT
  {
    FirstRows(RowsWithData(cells, table, columns), Window(cells, table, columns), SortedIds(RowsWithData(cells, table, columns)), id);
  }

  lemma FirstRows(rows: set<int>, window: seq<int>, all: seq<int>, id: int)
    requires Ascending(all) && forall row :: row in all <==> row in rows
    requires window == if |all| <= ROW_LIMIT then all else all[..ROW_LIMIT]
    ensures id in window <==> id in rows && |set row | row in rows && row < id| < ROW_LIMIT
  {
    if id in rows {
      var k :| 0 <= k < |all| && all[k] == id;
      Rank(all, k);
      assert (set row | row in rows && row < id) == (set row | row in all && row < all[k]);
      if k < ROW_LIMIT {
        assert window[k] == id;
      }
    }
  }

  /** Repairs give no new row any data, so a row that was looked at and keeps some is looked at again. */
  lemma LookedAtAgain(s: Service, tenant: int, cells: Cells, plan: seq<TableColumns>, table: Table, columns: seq<Column>, id: int)
    requires DistinctPlan(plan)
    requires id in Window(cells, table, columns) && id in RowsWithData(AfterRun(s, tenant, cells, plan), table, columns)
    ensures id in Window(AfterRun(s, tenant, cells, plan), table, columns)
  {
    var after := AfterRun(s, tenant, cells, plan);
    var before, now := RowsWithData(cells, table, columns), RowsWithData(after, table, columns);
    forall row | row in now ensures row in before {
      var at :| at in after && at.table == table && at.column in columns && Filled(after[at]) && at.id == row;
      CellAfterRun(s, tenant, cells, plan, at);
    }
    FewerBefore(before, now, id);
    InWindowIff(cells, table, columns, id);
    InWindowIff(after, table, columns, id);
  }

  lemma FewerBefore(rows: set<int>, fewer: set<int>, id: int)
    requires fewer <= rows
    ensures |set row | row in fewer && row < id| <= |set row | row in rows && row < id|
  {
    var a, b := set row | row in fewer && row < id, set row | row in rows && row < id;
    assert a <= b;
    assert |b| == |a| + |b - a|;
  }

  /** The cell was flagged as record `i`, and the next run for the same tenant takes its repair for corrupted. */
  ghost predicate RepairedInVain(s: Service, tenant: int, cells: Cells, records: seq<Flagged>, after: Cells, at: Address, i: nat) {
    && RepairedAsRecord(s, cells, records, after, at, i)
    && (s.isJson(records[i].data) || (tenant != REPAIR_TENANT && KeepsText(s, records[i].data, i)))
  }

  /**
   * What a second run for the same tenant flags among the cells the first run looked at: exactly those that
   * it flagged and whose text the repair kept, plain JSON for tenant 1 and everything not cleared for any other.
   */
  lemma SecondRunIff(s: Service, tenant: int, cells: Cells, plan: seq<TableColumns>, t: nat, at: Address)
    requires Lawful(s) && Authenticated(s) && DistinctPlan(plan) && t < |plan| && InWindow(cells, plan[t], at)
    requires !ScanTable(s, tenant, cells, plan[t].table, plan[t].columns).raised
    requires !ScanTable(s, tenant, AfterRun(s, tenant, cells, plan), plan[t].table, plan[t].columns).raised
    ensures var records, after := ScanAll(s, tenant, cells, plan, {}), AfterRun(s, tenant, cells, plan);
            !NotFlagged(ScanAll(s, tenant, after, plan, {}), at)
            <==> exists i: nat :: RepairedInVain(s, tenant, cells, records, after, at, i)
  {
    var records, after := ScanAll(s, tenant, cells, plan, {}), AfterRun(s, tenant, cells, plan);
    CellAfterRun(s, tenant, cells, plan, at);
    FlaggedIff(s, tenant, cells, plan, t, at);
    FlaggedIff(s, tenant, after, plan, t, at);
    forall i: nat | RepairedAsRecord(s, cells, records, after, at, i)
      ensures Corrupted(s, tenant, after, at) <==> RepairedInVain(s, tenant, cells, records, after, at, i)
    {
      assert !NotFlagged(records, at);
      FlaggedAgainIff(s, tenant, records[i].data, i);
    }
    if Corrupted(s, tenant, after, at) {
      assert at.id in RowsWithData(after, plan[t].table, plan[t].columns);
      LookedAtAgain(s, tenant, cells, plan, plan[t].table, plan[t].columns, at.id);
    }
  }

  lemma UntouchedWasBeyondLimit(s: Service, cells: Cells, plan: seq<TableColumns>, t: nat, f: Flagged)
    requires DistinctPlan(plan) && t < |plan| && f.at.table == plan[t].table && f.at.column in plan[t].columns
    requires !ScanTable(s, REPAIR_TENANT, cells, plan[t].table, plan[t].columns).raised
    requires f.at in cells && cells[f.at] == Some(f.data) && Corrupted(s, REPAIR_TENANT, cells, f.at)
    requires NotFlagged(ScanAll(s, REPAIR_TENANT, cells, plan, {}), f.at)
    ensures f.at.id !in Window(cells, plan[t].table, plan[t].columns)
    ensures |RowsWithData(cells, plan[t].table, plan[t].columns)| > ROW_LIMIT
  {
    assert f.at.id in RowsWithData(cells, plan[t].table, plan[t].columns);
    if f.at.id in Window(cells, plan[t].table, plan[t].columns) {
      CorruptedInWindowIsFlagged(s, REPAIR_TENANT, cells, plan, t, f);
    }
  }

  lemma {:induction false} InScanAll(s: Service, tenant: int, cells: Cells, plan: seq<TableColumns>, unreadable: set<Table>,
                                     t: nat, f: Flagged)
    requires t < |plan| && plan[t].table !in unreadable
    requires f in ScanTable(s, tenant, cells, plan[t].table, plan[t].columns).records
    ensures f in ScanAll(s, tenant, cells, plan, unreadable)
  {
    if t > 0 {
      InScanAll(s, tenant, cells, plan[1..], unreadable, t - 1, f);
    }
  }

  // ----- the same, told from the services and the cells --------------------------------------

  /** The key of the tenant opens the text, as JSON or, if that fails in an ordinary way, as a plain string. */
  predicate Readable(s: Service, tenant: int, text: string) {
    s.decryptJson(text, tenant).Plain? || (s.decryptJson(text, tenant).OtherFailure? && s.decryptData(text, tenant).Plain?)
  }

  /** Looking at the text raises: the second attempt fails in a way that the script does not expect. */
  predicate Raises(s: Service, tenant: int, text: string) {
    s.decryptJson(text, tenant).OtherFailure? && s.decryptData(text, tenant).Unexpected?
  }

  /** Everything else counts as corrupted, an unexpected failure of the first attempt included. */
  lemma TestedBothWays(s: Service, tenant: int, text: string)
    ensures TestDecryption(s, text, tenant)
         == if Raises(s, tenant, text) then None else Some(!Readable(s, tenant, text))
  {
  }

  /** Text that the tenant can read, and text whose test raises, survives every run. */
  lemma ReadableIsLeftAlone(s: Service, tenant: int, cells: Cells, plan: seq<TableColumns>, at: Address, text: string)
    requires DistinctPlan(plan) && at in cells && cells[at] == Some(text)
    requires Readable(s, tenant, text) || Raises(s, tenant, text) || |text| <= 20
    ensures at in AfterRun(s, tenant, cells, plan) && AfterRun(s, tenant, cells, plan)[at] == Some(text)
  {
    var records, after := ScanAll(s, tenant, cells, plan, {}), AfterRun(s, tenant, cells, plan);
    CellAfterRun(s, tenant, cells, plan, at);
    if i: nat :| RepairedAsRecord(s, cells, records, after, at, i) {
      FlaggedIsCorrupted(s, tenant, cells, plan, {}, records[i]);
      TestedBothWays(s, tenant, text);
    }
  }

  /** In a table whose scan raised nothing: the cells looked at are flagged exactly if they are long and not readable. */
  lemma FlaggedUnlessReadable(s: Service, tenant: int, cells: Cells, plan: seq<TableColumns>, t: nat, at: Address, text: string)
    requires DistinctPlan(plan) && t < |plan| && InWindow(cells, plan[t], at) && Cell(cells, at) == Some(text)
    requires !ScanTable(s, tenant, cells, plan[t].table, plan[t].columns).raised
    ensures !NotFlagged(ScanAll(s, tenant, cells, plan, {}), at) <==> |text| > 20 && !Readable(s, tenant, text)
  {
    FlaggedIff(s, tenant, cells, plan, t, at);
    TestedBothWays(s, tenant, text);
    if |text| > 20 {
      NothingRaises(s, tenant, cells, plan[t], at);
    }
  }

  lemma {:induction false} ScanRaisesIff(s: Service, tenant: int, cells: Cells, ats: seq<Address>)
    ensures ScanCells(s, tenant, cells, ats).raised
       <==> exists at :: at in ats && Cell(cells, at).Some? && |Cell(cells, at).value| > 20 && Raises(s, tenant, Cell(cells, at).value)
  {
    if |ats| > 0 {
      ScanRaisesIff(s, tenant, cells, ats[1..]);
      assert forall at :: at in ats <==> at == ats[0] || at in ats[1..];
    }
  }

  /** The scan of a table is cut short exactly when one of the cells looked at raises. */
  lemma RaisedIff(s: Service, tenant: int, cells: Cells, part: TableColumns)
    ensures ScanTable(s, tenant, cells, part.table, part.columns).raised
       <==> exists at :: InWindow(cells, part, at) && Cell(cells, at).Some? && |Cell(cells, at).value| > 20
                         && Raises(s, tenant, Cell(cells, at).value)
  {
    var ats := TableCells(part.table, Window(cells, part.table, part.columns), part.columns);
    ScanRaisesIff(s, tenant, cells, ats);
    forall at ensures at in ats <==> InWindow(cells, part, at) {
      InTableCells(part.table, Window(cells, part.table, part.columns), part.columns, at);
    }
  }

  lemma NothingRaises(s: Service, tenant: int, cells: Cells, part: TableColumns, at: Address)
    requires !ScanTable(s, tenant, cells, part.table, part.columns).raised
    requires InWindow(cells, part, at) && Cell(cells, at).Some? && |Cell(cells, at).value| > 20
    ensures !Raises(s, tenant, Cell(cells, at).value)
  {
    RaisedIff(s, tenant, cells, part);
  }

  /** A row has data if one of the planned columns holds a non-empty text. */
  lemma HasData(cells: Cells, table: Table, columns: seq<Column>, id: int)
    ensures id in RowsWithData(cells, table, columns)
       <==> exists c :: c in columns && Address(table, id, c) in cells && cells[Address(table, id, c)] != None
                        && cells[Address(table, id, c)] != Some("")
  {
    if c :| c in columns && Address(table, id, c) in cells && cells[Address(table, id, c)] != None
            && cells[Address(table, id, c)] != Some("") {
      assert Address(table, id, c).id == id;
    }
  }

  /** A run looks at the first hundred rows with data, in the order of their ids. */
  lemma LooksAtFirstHundred(cells: Cells, table: Table, columns: seq<Column>, id: int)
    ensures id in Window(cells, table, columns)
       <==> id in RowsWithData(cells, table, columns) && |set row | row in RowsWithData(cells, table, columns) && row < id| < 100
  {
    InWindowIff(cells, table, columns, id);
  }

  /** What comes before the cell that raises is flagged all the same. */
  lemma {:induction false} FlaggedBeforeRaise(s: Service, tenant: int, cells: Cells, ats: seq<Address>, k: nat)
    requires k < |ats| && Corrupted(s, tenant, cells, ats[k])
    requires forall j :: 0 <= j < k ==>
               Cell(cells, ats[j]).None? || |Cell(cells, ats[j]).value| <= 20 || !Raises(s, tenant, Cell(cells, ats[j]).value)
    ensures Flagged(ats[k], Cell(cells, ats[k]).value) in ScanCells(s, tenant, cells, ats).records
  {
    if k > 0 {
      assert ats[1..][k - 1] == ats[k];
      FlaggedBeforeRaise(s, tenant, cells, ats[1..], k - 1);
    }
  }

  /** An empty re-encryption is taken for none. */
  function NonEmpty(text: Option<string>): Option<string> {
    if text == Some("") then None else text
  }

  /**
   * What a flagged text is set to: plain JSON to itself; otherwise, if it decodes to at least thirteen bytes, to
   * what the key of tenant 2, or failing that tenant 3, gives, encrypted for tenant 1; otherwise to NULL.
   */
  lemma RepairedInTurn(s: Service, data: string, nonce: nat)
    requires data != ""
    ensures Repaired(s, data, nonce)
         == if s.isJson(data) then Some(data)
            else if s.decodedLength(data).None? || s.decodedLength(data).value < 13 then None
            else if s.decryptJson(data, 2).Plain? && s.encryptJson(s.decryptJson(data, 2).value, 1, nonce).Some?
            then NonEmpty(s.encryptJson(s.decryptJson(data, 2).value, 1, nonce))
            else if s.decryptJson(data, 3).Plain?
            then NonEmpty(s.encryptJson(s.decryptJson(data, 3).value, 1, nonce))
            else None
  {
    TriedInTurn(s, data, nonce);
  }

  /** The values that are encrypted as the empty string. */
  lemma FalsyValues(j: Json)
    ensures !Truthy(j) <==> j == Json.Null || j == Json.Bool(false) || j == Number(0.0) || j == Str("") || j == List([]) || j == Dict([])
  {
  }

  /** The columns that hold encrypted data, by table. */
  function EncryptedColumns(table: Table): set<Column> {
    match table
    case Expenses => {AnalysisResult, CustomFields, OcrData}
    case Invoices => {AnalysisResult, CustomFields, OcrData}
    case Users => {EncryptedSettings}
    case Tenants => {EncryptedConfig}
  }

  /** A run works through exactly the encrypted columns that the schema has. */
  lemma PlannedColumns(schema: map<Table, set<Column>>, table: Table, column: Column)
    ensures (exists part :: part in Plan(schema) && part.table == table && column in part.columns)
       <==> table in schema && column in schema[table] && column in EncryptedColumns(table)
  {
    PlanIsExactly(schema);
    KnownIsEncrypted(table);
    if table in schema && column in schema[table] && column in EncryptedColumns(table) {
      var k := KnownPart(table);
      var part := TableColumns(table, Existing(k.columns, schema[table]));
      assert column in part.columns;
      assert IsPartOf(part, KNOWN_TABLES, schema);
    }
  }

  lemma KnownPart(table: Table) returns (part: TableColumns)
    ensures part in KNOWN_TABLES && part.table == table && forall c :: c in part.columns <==> c in EncryptedColumns(table)
  {
    match table
    case Expenses => part := KNOWN_TABLES[0];
    case Invoices => part := KNOWN_TABLES[1];
    case Users => part := KNOWN_TABLES[2];
    case Tenants => part := KNOWN_TABLES[3];
  }

  lemma KnownIsEncrypted(table: Table)
    ensures forall k :: k in KNOWN_TABLES && k.table == table ==> forall c :: c in k.columns ==> c in EncryptedColumns(table)
  {
  }

  lemma {:induction false} CountedFailures(failures: Failures, n: nat)
    ensures CountFailures(failures, n) == |set k | 0 <= k < n && k in failures|
  {
    var counted := set k | 0 <= k < n && k in failures;
    if n == 0 {
      assert counted == {};
    } else {
      CountedFailures(failures, n - 1);
      var fewer := set k | 0 <= k < n - 1 && k in failures;
      assert counted == if n - 1 in failures then fewer + {n - 1} else fewer;
    }
  }

  // ----- the tool --------------------------------------------------------------------------

  const KNOWN_TABLES := [
    TableColumns(Expenses, [AnalysisResult, CustomFields, OcrData]),
    TableColumns(Invoices, [AnalysisResult, CustomFields, OcrData]),
    TableColumns(Users, [EncryptedSettings]),
    TableColumns(Tenants, [EncryptedConfig])]

  lemma KnownTablesAreDistinct()
    ensures DistinctPlan(KNOWN_TABLES)
  {
  }

  function Existing(columns: seq<Column>, present: set<Column>): (existing: seq<Column>)
    ensures forall c :: c in existing <==> c in columns && c in present
    ensures NoDuplicates(columns) ==> NoDuplicates(existing)
  {
    if columns == [] then []
    else
      var rest := Existing(columns[1..], present);
      assert NoDuplicates(columns) ==> columns[0] !in columns[1..] by {
        assert forall i :: 0 <= i < |columns[1..]| ==> columns[1..][i] == columns[i + 1];
      }
      if columns[0] in present then [columns[0]] + rest else rest
  }

  /** The existing parts of the listed tables, in their order. */
  function ExistingParts(known: seq<TableColumns>, schema: map<Table, set<Column>>): seq<TableColumns> {
    if |known| == 0 then []
    else
      var last := known[|known| - 1];
      ExistingParts(known[..|known| - 1], schema)
      + (if last.table in schema && Existing(last.columns, schema[last.table]) != []
         then [TableColumns(last.table, Existing(last.columns, schema[last.table]))] else [])
  }

  /** What a run works through: it depends on the schema alone. */
  function Plan(schema: map<Table, set<Column>>): seq<TableColumns> {
    ExistingParts(KNOWN_TABLES, schema)
  }

  /** The columns of a listed table that the schema has. */
  predicate IsPartOf(part: TableColumns, known: seq<TableColumns>, schema: map<Table, set<Column>>) {
    && part.table in schema && part.columns != []
    && exists k :: k in known && k.table == part.table && part.columns == Existing(k.columns, schema[part.table])
  }

  lemma {:induction false} PartsExactly(known: seq<TableColumns>, schema: map<Table, set<Column>>, part: TableColumns)
    ensures part in ExistingParts(known, schema) <==> IsPartOf(part, known, schema)
  {
    if |known| > 0 {
      var n := |known| - 1;
      PartsExactly(known[..n], schema, part);
      assert known == known[..n] + [known[n]];
      PartsOfOneMore(known[..n], known[n], schema);
    }
  }

  lemma {:induction false} PartsAreDistinct(known: seq<TableColumns>, schema: map<Table, set<Column>>)
    requires DistinctPlan(known)
    ensures DistinctPlan(ExistingParts(known, schema))
  {
    if |known| > 0 {
      var n := |known| - 1;
      PartsAreDistinct(known[..n], schema);
      forall part | part in ExistingParts(known[..n], schema) ensures part.table != known[n].table {
        PartsExactly(known[..n], schema, part);
        var k :| k in known[..n] && k.table == part.table;
        var i :| 0 <= i < n && known[i] == k;
      }
    }
  }

  lemma PartsOfOneMore(earlier: seq<TableColumns>, last: TableColumns, schema: map<Table, set<Column>>)
    ensures forall p :: IsPartOf(p, earlier + [last], schema) <==> IsPartOf(p, earlier, schema) || IsPartOf(p, [last], schema)
    ensures forall p :: IsPartOf(p, [last], schema) <==>
              last.table in schema && Existing(last.columns, schema[last.table]) != []
              && p == TableColumns(last.table, Existing(last.columns, schema[last.table]))
  {
    assert last in [last] && last in earlier + [last];
  }

  /** The plan holds every known table that the schema has with a known column, once, and nothing else. */
  lemma PlanIsExactly(schema: map<Table, set<Column>>)
    ensures DistinctPlan(Plan(schema))
    ensures forall p :: p in Plan(schema) <==> IsPartOf(p, KNOWN_TABLES, schema)
  {
    KnownTablesAreDistinct();
    PartsAreDistinct(KNOWN_TABLES, schema);
    forall p ensures p in Plan(schema) <==> IsPartOf(p, KNOWN_TABLES, schema) {
      PartsExactly(KNOWN_TABLES, schema, p);
    }
  }

  /** The part is in the schema, the cell is in the part within the row limit, and the part's scan comes to its end. */
  predicate LooksAt(s: Service, schema: map<Table, set<Column>>, tenant: int, cells: Cells, part: TableColumns, at: Address) {
    && IsPartOf(part, KNOWN_TABLES, schema) && InWindow(cells, part, at)
    && !ScanTable(s, tenant, cells, part.table, part.columns).raised
  }

  /**
   * Which cells an executing run repairs, told from the schema: a cell of a known column that exists, within
   * the row limit, is repaired exactly if it is corrupted, provided the scan of its table raised nothing; every
   * other cell is left alone.
   */
  lemma RunOnSchema(s: Service, schema: map<Table, set<Column>>, tenant: int, cells: Cells, at: Address)
    requires Lawful(s)
    ensures var records, after := ScanAll(s, tenant, cells, Plan(schema), {}), AfterRun(s, tenant, cells, Plan(schema));
            && (forall part :: LooksAt(s, schema, tenant, cells, part, at) ==>
                  (!NotFlagged(records, at) <==> Corrupted(s, tenant, cells, at)))
            && ((forall part :: IsPartOf(part, KNOWN_TABLES, schema) ==> !InWindow(cells, part, at)) ==> NotFlagged(records, at))
            && (NotFlagged(records, at) ==> Cell(after, at) == Cell(cells, at))
            && (!NotFlagged(records, at) ==>
                  Cell(cells, at).Some? && IsRepair(s, Cell(cells, at).value, Cell(after, at)))
  {
    var plan := Plan(schema);
    var records := ScanAll(s, tenant, cells, plan, {});
    PlanIsExactly(schema);
    RepairOutcome(s, tenant, cells, plan, at);
    forall part | LooksAt(s, schema, tenant, cells, part, at)
      ensures !NotFlagged(records, at) <==> Corrupted(s, tenant, cells, at)
    {
      assert part in plan;
      var t :| 0 <= t < |plan| && plan[t] == part;
      FlaggedIff(s, tenant, cells, plan, t, at);
    }
    if i :| 0 <= i < |records| && records[i].at == at {
      FlaggedIsCorrupted(s, tenant, cells, plan, {}, records[i]);
      var t :| 0 <= t < |plan| && InWindow(cells, plan[t], at);
      assert plan[t] in plan;
    }
  }

  lemma {:induction false} ScanInParts(s: Service, tenant: int, cells: Cells, first: seq<Address>, second: seq<Address>)
    ensures var a, b := ScanCells(s, tenant, cells, first), ScanCells(s, tenant, cells, second);
            ScanCells(s, tenant, cells, first + second) == if a.raised then a else Scan(a.records + b.records, b.raised)
  {
    if first == [] {
      assert first + second == second;
    } else {
      assert (first + second)[1..] == first[1..] + second;
      ScanInParts(s, tenant, cells, first[1..], second);
    }
  }

  lemma FlaggedAssociate(a: seq<Flagged>, b: seq<Flagged>, c: seq<Flagged>)
    ensures a + (b + c) == a + b + c
  {
  }

  class CorruptedDataFixer {
    var cells: Cells
    var corruptedFound: nat
    var recordsFixed: nat
    var recordsCleared: nat
    var errors: nat

    constructor (cells: Cells)
      ensures this.cells == cells && corruptedFound == recordsFixed == recordsCleared == errors == 0
    {
      this.cells := cells;
      corruptedFound, recordsFixed, recordsCleared, errors := 0, 0, 0, 0;
    }

    /** The known tables and columns that exist. */
    method FindEncryptedTables(schema: map<Table, set<Column>>) returns (plan: seq<TableColumns>)
      ensures plan == Plan(schema) && DistinctPlan(plan)
      ensures forall p :: p in plan <==> IsPartOf(p, KNOWN_TABLES, schema)
    {
      plan := [];
      for i := 0 to |KNOWN_TABLES|
        invariant plan == ExistingParts(KNOWN_TABLES[..i], schema)
      {
        var known := KNOWN_TABLES[i];
        assert KNOWN_TABLES[..i + 1][..i] == KNOWN_TABLES[..i];
        if known.table in schema {
          var existing := Existing(known.columns, schema[known.table]);
          if existing != [] {
            plan := plan + [TableColumns(known.table, existing)];
          }
        }
      }
      assert KNOWN_TABLES[..|KNOWN_TABLES|] == KNOWN_TABLES;
      PlanIsExactly(schema);
    }

    /** The loop over the columns of one row. */
    method CheckRow(s: Service, table: Table, id: int, columns: seq<Column>, tenant: int)
      returns (records: seq<Flagged>, raised: bool)
      modifies this`corruptedFound
      ensures Scan(records, raised) == ScanCells(s, tenant, cells, RowCells(table, id, columns))
      ensures corruptedFound == old(corruptedFound) + |records|
    {
      records, raised := [], false;
      ghost var row := RowCells(table, id, columns);
      ghost var whole := ScanCells(s, tenant, cells, row);
      assert row[0..] == row && records + whole.records == whole.records;
      for c := 0 to |columns|
        invariant corruptedFound == old(corruptedFound) + |records| && !raised
        invariant var rest := ScanCells(s, tenant, cells, row[c..]);
                  whole == Scan(records + rest.records, rest.raised)
      {
        var at := Address(table, id, columns[c]);
        ScanOneCell(s, tenant, cells, row, c, records);
        if LooksEncrypted(Cell(cells, at)) {
          var data := Cell(cells, at).value;
          match TestDecryption(s, data, tenant)
          case None =>
            return records, true;
          case Some(corrupted) =>
            if corrupted {
              records := records + [Flagged(at, data)];
              corruptedFound := corruptedFound + 1;
            }
        }
      }
    }

    /** The loop over the rows; it ends at the first exception. */
    method CheckRows(s: Service, table: Table, ids: seq<int>, columns: seq<Column>, tenant: int)
      returns (records: seq<Flagged>, raised: bool)
      modifies this`corruptedFound
      ensures Scan(records, raised) == ScanCells(s, tenant, cells, TableCells(table, ids, columns))
      ensures corruptedFound == old(corruptedFound) + |records|
    {
      records, raised := [], false;
      ghost var all := TableCells(table, ids, columns);
      for r := 0 to |ids|
        invariant corruptedFound == old(corruptedFound) + |records| && !raised
        invariant var rest := ScanCells(s, tenant, cells, TableCells(table, ids[r..], columns));
                  ScanCells(s, tenant, cells, all) == Scan(records + rest.records, rest.raised)
      {
        assert ids[r..][1..] == ids[r + 1..];
        ghost var later := TableCells(table, ids[r + 1..], columns);
        ScanInParts(s, tenant, cells, RowCells(table, ids[r], columns), later);
        var inRow: seq<Flagged>;
        inRow, raised := CheckRow(s, table, ids[r], columns, tenant);
        FlaggedAssociate(records, inRow, ScanCells(s, tenant, cells, later).records);
        records := records + inRow;
        if raised {
          return;
        }
      }
    }

    /** `check_encrypted_data_in_table`: an exception ends the table, what was flagged before it stays flagged. */
    method CheckTable(s: Service, table: Table, columns: seq<Column>, tenant: int, unreadable: set<Table>)
      returns (records: seq<Flagged>)
      modifies this`corruptedFound, this`errors
      ensures records == if table in unreadable then [] else ScanTable(s, tenant, cells, table, columns).records
      ensures corruptedFound == old(corruptedFound) + |records|
      ensures errors == old(errors)
                + (if table in unreadable || ScanTable(s, tenant, cells, table, columns).raised then 1 else 0)
    {
      records := [];
      if table in unreadable {
        errors := errors + 1;
        return;
      }
      var raised;
      records, raised := CheckRows(s, table, Window(cells, table, columns), columns, tenant);
      if raised {
        errors := errors + 1;
      }
    }

    /** `fix_corrupted_record`, for record number `k` of the run. */
    method FixCorruptedRecord(s: Service, record: Flagged, k: nat, dryRun: bool, failures: Failures) returns (ok: bool)
      modifies this`cells, this`recordsFixed, this`recordsCleared, this`errors
      ensures ok <==> dryRun || k !in failures
      ensures dryRun || !ok ==> cells == old(cells) && recordsFixed == old(recordsFixed) && recordsCleared == old(recordsCleared)
      ensures !dryRun && ok ==>
                && cells == old(cells)[record.at := Repaired(s, record.data, k)]
                && recordsFixed == old(recordsFixed) + (if Repaired(s, record.data, k).Some? then 1 else 0)
                && recordsCleared == old(recordsCleared) + (if Repaired(s, record.data, k).None? then 1 else 0)
      ensures errors == old(errors) + (if ok then 0 else 1)
    {
      var recovered := Recover(s, record.data, REPAIR_TENANT, k);
      if recovered.Some? && recovered.value != "" {
        if dryRun {
          return true;
        }
        if k in failures {
          errors := errors + 1;
          return false;
        }
        cells := cells[record.at := Some(recovered.value)];
        recordsFixed := recordsFixed + 1;
        return true;
      } else {
        if dryRun {
          return true;
        }
        if k in failures {
          errors := errors + 1;
          return false;
        }
        cells := cells[record.at := None];
        recordsCleared := recordsCleared + 1;
        return true;
      }
    }

    /** The loop over the tables. */
    method CheckAll(s: Service, plan: seq<TableColumns>, tenant: int, unreadable: set<Table>) returns (records: seq<Flagged>)
      modifies this`corruptedFound, this`errors
      ensures records == ScanAll(s, tenant, cells, plan, unreadable)
      ensures corruptedFound == old(corruptedFound) + |records|
      ensures errors == old(errors) + TablesCutShort(s, tenant, cells, plan, unreadable)
    {
      records := [];
      ghost var all, cut := ScanAll(s, tenant, cells, plan, unreadable), TablesCutShort(s, tenant, cells, plan, unreadable);
      assert plan[0..] == plan && plan[..|plan|] == plan && records + all == all;
      for t := 0 to |plan|
        invariant corruptedFound == old(corruptedFound) + |records|
        invariant records + ScanAll(s, tenant, cells, plan[t..], unreadable) == all
        invariant errors == old(errors) + TablesCutShort(s, tenant, cells, plan[..t], unreadable)
      {
        CutShortOneMore(s, tenant, cells, plan, t, unreadable);
        ScanOneTable(s, tenant, cells, plan, t, unreadable, records);
        var found := CheckTable(s, plan[t].table, plan[t].columns, tenant, unreadable);
        assert found == TableRecords(s, tenant, cells, plan[t], unreadable);
        records := records + found;
      }
      assert plan[..|plan|] == plan && cut == TablesCutShort(s, tenant, cells, plan[..|plan|], unreadable);
    }

    /** The loop over the flagged records. */
    method FixAll(s: Service, records: seq<Flagged>, dryRun: bool, failures: Failures)
      modifies this`cells, this`recordsFixed, this`recordsCleared, this`errors
      ensures cells == if dryRun then old(cells) else Fixed(s, old(cells), records, |records|, failures)
      ensures dryRun ==> recordsFixed == old(recordsFixed) && recordsCleared == old(recordsCleared)
      ensures !dryRun ==> (recordsFixed - old(recordsFixed)) + (recordsCleared - old(recordsCleared))
                          + CountFailures(failures, |records|) == |records|
      ensures errors == old(errors) + (if dryRun then 0 else CountFailures(failures, |records|))
    {
      for k := 0 to |records|
        invariant cells == if dryRun then old(cells) else Fixed(s, old(cells), records, k, failures)
        invariant dryRun ==> recordsFixed == old(recordsFixed) && recordsCleared == old(recordsCleared)
        invariant !dryRun ==> (recordsFixed - old(recordsFixed)) + (recordsCleared - old(recordsCleared))
                              + CountFailures(failures, k) == k
        invariant errors == old(errors) + (if dryRun then 0 else CountFailures(failures, k))
      {
        var _ := FixCorruptedRecord(s, records[k], k, dryRun, failures);
      }
    }

    /** The rest of the run, once the plan is known. */
    method CheckAndFix(s: Service, plan: seq<TableColumns>, tenant: int, dryRun: bool, unreadable: set<Table>, failures: Failures)
      modifies this
      ensures var records := ScanAll(s, tenant, old(cells), plan, unreadable);
              && corruptedFound == old(corruptedFound) + |records|
              && cells == if dryRun then old(cells) else Fixed(s, old(cells), records, |records|, failures)
      ensures dryRun ==> recordsFixed == old(recordsFixed) && recordsCleared == old(recordsCleared)
      ensures !dryRun ==>
                corruptedFound - old(corruptedFound)
                == (recordsFixed - old(recordsFixed)) + (recordsCleared - old(recordsCleared))
                   + CountFailures(failures, corruptedFound - old(corruptedFound))
      ensures errors == old(errors) + TablesCutShort(s, tenant, old(cells), plan, unreadable)
                        + (if dryRun then 0 else CountFailures(failures, corruptedFound - old(corruptedFound)))
    {
      var records := CheckAll(s, plan, tenant, unreadable);
      if |records| == 0 {
        return;
      }
      FixAll(s, records, dryRun, failures);
    }

    /**
     * `run_comprehensive_fix`. In an executing run every corrupted cell found is fixed, cleared, or one
     * whose update failed; a dry run changes no cell and neither counter.
     */
    method RunComprehensiveFix(s: Service, schema: map<Table, set<Column>>, tenant: int, dryRun: bool,
                               unreadable: set<Table>, failures: Failures)
      modifies this
      ensures var records := ScanAll(s, tenant, old(cells), Plan(schema), unreadable);
              && corruptedFound == old(corruptedFound) + |records|
              && cells == if dryRun then old(cells) else Fixed(s, old(cells), records, |records|, failures)
      ensures dryRun ==> recordsFixed == old(recordsFixed) && recordsCleared == old(recordsCleared)
      ensures !dryRun ==>
                corruptedFound - old(corruptedFound)
                == (recordsFixed - old(recordsFixed)) + (recordsCleared - old(recordsCleared))
                   + CountFailures(failures, corruptedFound - old(corruptedFound))
      ensures errors == old(errors) + TablesCutShort(s, tenant, old(cells), Plan(schema), unreadable)
                        + (if dryRun then 0 else CountFailures(failures, corruptedFound - old(corruptedFound)))
    {
      var plan := FindEncryptedTables(schema);
      if |plan| > 0 {
        CheckAndFix(s, plan, tenant, dryRun, unreadable, failures);
      }
    }
  }
}
