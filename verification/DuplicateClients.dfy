// api/scripts/cleanup_duplicate_clients.py: clients that share a name and an email are merged into
// the oldest of them, one committed group at a time.

module DuplicateClients {
  import opened Collections

  datatype Client = Client(
    name: Option<string>, email: Option<string>,
    phone: Option<string>, address: Option<string>, preferredCurrency: Option<string>,
    balance: Option<real>, paidAmount: Option<real>)

  datatype Key = Key(name: Option<string>, email: Option<string>)

  /** One tenant's tables: clients by id, and the client id of each invoice and of each client note. */
  datatype Db = Db(clients: map<int, Client>, invoices: map<int, int>, notes: map<int, int>)

  /** One row of the GROUP BY query. */
  datatype GroupRow = GroupRow(key: Key, count: nat)

  function KeyOf(client: Client): Key {
    Key(client.name, client.email)
  }

  function Members(db: Db, key: Key): set<int> {
    set id | id in db.clients && KeyOf(db.clients[id]) == key
  }

  /** The foreign keys of invoices and notes hold. */
  ghost predicate Consistent(db: Db) {
    && (forall i :: i in db.invoices ==> db.invoices[i] in db.clients)
    && (forall n :: n in db.notes ==> db.notes[n] in db.clients)
  }

  /** Each row names another group of clients, of at least two. */
  ghost predicate AreDuplicateGroups(db: Db, rows: seq<GroupRow>) {
    && (forall i, j :: 0 <= i < j < |rows| ==> rows[i].key != rows[j].key)
    && (forall i :: 0 <= i < |rows| ==> rows[i].count > 1)
    && (forall i {:trigger Members(db, rows[i].key)} :: 0 <= i < |rows| ==> rows[i].count == |Members(db, rows[i].key)|)
  }

  /** The answer of the GROUP BY ... HAVING COUNT(id) > 1 query, in whatever order the database gives it. */
  ghost predicate IsGroupQuery(db: Db, rows: seq<GroupRow>) {
    && AreDuplicateGroups(db, rows)
    && (forall id :: id in db.clients && |Members(db, KeyOf(db.clients[id]))| > 1 ==> KeyOf(db.clients[id]) in KeysOf(rows))
  }

  function KeysOf(rows: seq<GroupRow>): set<Key> {
    set i | 0 <= i < |rows| :: rows[i].key
  }

  // ----- folding one client into another ---------------------------------------------------

  datatype TextField = Phone | Address | PreferredCurrency
  datatype MoneyField = Balance | PaidAmount

  function Text(client: Client, field: TextField): Option<string> {
    match field
    case Phone => client.phone
    case Address => client.address
    case PreferredCurrency => client.preferredCurrency
  }

  function Money(client: Client, field: MoneyField): Option<real> {
    match field
    case Balance => client.balance
    case PaidAmount => client.paidAmount
  }

  predicate IsFilled(text: Option<string>) {
    text.Some? && text.value != ""
  }

  function OrZero(money: Option<real>): real {
    if money.Some? then money.value else 0.0
  }

  function PickText(kept: Option<string>, removed: Option<string>): Option<string> {
    if IsFilled(removed) && !IsFilled(kept) then removed else kept
  }

  function AddMoney(kept: Option<real>, removed: Option<real>): Option<real> {
    if removed.Some? && removed.value != 0.0 then Some(OrZero(kept) + removed.value) else kept
  }

  function Absorb(kept: Client, removed: Client): Client {
    kept.(phone := PickText(kept.phone, removed.phone),
          address := PickText(kept.address, removed.address),
          preferredCurrency := PickText(kept.preferredCurrency, removed.preferredCurrency),
          balance := AddMoney(kept.balance, removed.balance),
          paidAmount := AddMoney(kept.paidAmount, removed.paidAmount))
  }

  /** UPDATE invoices SET client_id = keep WHERE client_id = remove */
  function Repoint(invoices: map<int, int>, remove: int, keep: int): map<int, int> {
    map i | i in invoices :: if invoices[i] == remove then keep else invoices[i]
  }

  /** Deleting a client takes the invoices and notes that still point at it along (cascade). */
  function DeleteClient(db: Db, id: int): Db {
    Db(db.clients - {id},
       map i | i in db.invoices && db.invoices[i] != id :: db.invoices[i],
       map n | n in db.notes && db.notes[n] != id :: db.notes[n])
  }

  function MergeOne(db: Db, keep: int, remove: int): Db
    requires keep in db.clients && remove in db.clients
  {
    var merged := Absorb(db.clients[keep], db.clients[remove]);
    DeleteClient(Db(db.clients[keep := merged], Repoint(db.invoices, remove, keep), db.notes), remove)
  }

  predicate CanMerge(db: Db, keep: int, removes: seq<int>) {
    && keep in db.clients && keep !in removes
    && (forall i :: 0 <= i < |removes| ==> removes[i] in db.clients)
    && NoDuplicates(removes)
  }

  function MergeAll(db: Db, keep: int, removes: seq<int>): (merged: Db)
    requires CanMerge(db, keep, removes)
    ensures merged.clients.Keys == db.clients.Keys - Elements(removes)
    decreases |removes|
  {
    if removes == [] then db
    else
      var last := |removes| - 1;
      MergeOne(MergeAll(db, keep, removes[..last]), keep, removes[last])
  }

  /** SELECT ... WHERE name = ... AND email = ... ORDER BY id: a group's clients, oldest first. */
  function OldestFirst(db: Db, key: Key): (ids: seq<int>)
    ensures forall i :: 0 <= i < |ids| ==> ids[i] in db.clients && KeyOf(db.clients[ids[i]]) == key
    ensures |ids| == |Members(db, key)| && Ascending(ids)
    ensures |ids| > 0 ==> CanMerge(db, ids[0], ids[1..])
  {
    var ids := SortedIds(Members(db, key));
    assert forall i :: 0 <= i < |ids| ==> ids[i] in Members(db, key);
    ids
  }

  function MergeGroup(db: Db, key: Key): Db {
    var ids := OldestFirst(db, key);
    if |ids| <= 1 then db else MergeAll(db, ids[0], ids[1..])
  }

  function MergeGroups(db: Db, rows: seq<GroupRow>): Db {
    if rows == [] then db
    else MergeGroup(MergeGroups(db, rows[..|rows| - 1]), rows[|rows| - 1].key)
  }

  // ----- money -----------------------------------------------------------------------------

  /** A money column of the given clients, a missing amount counting as zero. */
  ghost function Column(clients: map<int, Client>, ids: set<int>, field: MoneyField): map<int, real> {
    map id | id in ids && id in clients :: OrZero(Money(clients[id], field))
  }

  ghost function TotalMoney(db: Db, field: MoneyField): real {
    Total(Column(db.clients, db.clients.Keys, field))
  }

  lemma MergeOneConservesMoney(db: Db, keep: int, remove: int, field: MoneyField)
    requires keep in db.clients && remove in db.clients && keep != remove
    ensures TotalMoney(MergeOne(db, keep, remove), field) == TotalMoney(db, field)
  {
    var before := Column(db.clients, db.clients.Keys, field);
    var merged := MergeOne(db, keep, remove);
    var after := Column(merged.clients, merged.clients.Keys, field);
    TotalSplit(before, remove);
    TotalSplit(before - {remove}, keep);
    TotalSplit(after, keep);
    assert after - {keep} == before - {remove} - {keep};
    assert after[keep] == before[keep] + before[remove];
  }

  // ----- one group -------------------------------------------------------------------------

  /** `text` is the first non-empty value of the column in the given order, or the first client's if all are empty. */
  ghost predicate IsFirstFilled(clients: map<int, Client>, ids: seq<int>, field: TextField, text: Option<string>)
    requires |ids| > 0 && forall i :: 0 <= i < |ids| ==> ids[i] in clients
  {
    || (exists i :: 0 <= i < |ids| && IsFilled(Text(clients[ids[i]], field)) && text == Text(clients[ids[i]], field)
          && forall j :: 0 <= j < i ==> !IsFilled(Text(clients[ids[j]], field)))
    || ((forall i :: 0 <= i < |ids| ==> !IsFilled(Text(clients[ids[i]], field))) && text == Text(clients[ids[0]], field))
  }

  /** `client` holds what the clients `ids` held together, the first of them giving its identity. */
  ghost predicate IsMergeOf(clients: map<int, Client>, ids: seq<int>, client: Client)
    requires |ids| > 0 && forall i :: 0 <= i < |ids| ==> ids[i] in clients
  {
    && KeyOf(client) == KeyOf(clients[ids[0]])
    && (forall f: TextField :: IsFirstFilled(clients, ids, f, Text(client, f)))
    && (forall f: MoneyField :: OrZero(Money(client, f)) == Total(Column(clients, Elements(ids), f)))
    && (forall f: MoneyField :: Money(client, f).None? <==> Money(clients[ids[0]], f).None? && AllZero(clients, ids, f))
  }

  ghost predicate AllZero(clients: map<int, Client>, ids: seq<int>, field: MoneyField)
    requires forall i :: 0 <= i < |ids| ==> ids[i] in clients
  {
    forall i :: 0 <= i < |ids| ==> OrZero(Money(clients[ids[i]], field)) == 0.0
  }

  lemma AllZeroExtends(clients: map<int, Client>, ids: seq<int>, field: MoneyField, next: int)
    requires (forall i :: 0 <= i < |ids| ==> ids[i] in clients) && next in clients
    ensures AllZero(clients, ids + [next], field) <==> AllZero(clients, ids, field) && OrZero(Money(clients[next], field)) == 0.0
  {
    var more := ids + [next];
    assert more[|ids|] == next && forall i :: 0 <= i < |ids| ==> more[i] == ids[i];
  }

  /** The invoices of the removed clients now belong to `keep`; no invoice is lost or added. */
  ghost predicate InvoicesMoved(invoices: map<int, int>, keep: int, removes: seq<int>, after: map<int, int>) {
    && (forall i :: i in after <==> i in invoices)
    && (forall i :: i in invoices ==> after[i] == if invoices[i] in removes then keep else invoices[i])
  }

  /** The notes of the removed clients are gone with them; the others are unchanged. */
  ghost predicate NotesDropped(notes: map<int, int>, removes: seq<int>, after: map<int, int>) {
    && (forall n :: n in after ==> n in notes && after[n] == notes[n])
    && (forall n :: n in notes ==> (n in after <==> notes[n] !in removes))
  }

  /** Everything the merge of one group does to the tables. */
  ghost predicate GroupMerged(db: Db, keep: int, removes: seq<int>, after: Db)
    requires CanMerge(db, keep, removes)
  {
    && after.clients.Keys == db.clients.Keys - Elements(removes)
    && (forall id :: id in after.clients && id != keep ==> after.clients[id] == db.clients[id])
    && IsMergeOf(db.clients, [keep] + removes, after.clients[keep])
    && InvoicesMoved(db.invoices, keep, removes, after.invoices)
    && NotesDropped(db.notes, removes, after.notes)
    && (forall f: MoneyField :: TotalMoney(after, f) == TotalMoney(db, f))
  }

  lemma MergeOfOne(clients: map<int, Client>, keep: int)
    requires keep in clients
    ensures IsMergeOf(clients, [keep], clients[keep])
  {
    forall f: MoneyField ensures OrZero(Money(clients[keep], f)) == Total(Column(clients, Elements([keep]), f)) {
      var column := Column(clients, Elements([keep]), f);
      assert keep in [keep];
      TotalSplit(column, keep);
      assert column - {keep} == map[];
    }
  }

  lemma FirstFilledExtends(clients: map<int, Client>, ids: seq<int>, field: TextField, text: Option<string>, next: int)
    requires |ids| > 0 && (forall i :: 0 <= i < |ids| ==> ids[i] in clients) && next in clients
    requires IsFirstFilled(clients, ids, field, text)
    ensures IsFirstFilled(clients, ids + [next], field, PickText(text, Text(clients[next], field)))
  {
    var more := ids + [next];
    assert more[|ids|] == next && forall i :: 0 <= i < |ids| ==> more[i] == ids[i];
  }

  lemma MergeExtends(clients: map<int, Client>, ids: seq<int>, client: Client, next: int)
    requires |ids| > 0 && (forall i :: 0 <= i < |ids| ==> ids[i] in clients) && next in clients && next !in ids
    requires IsMergeOf(clients, ids, client)
    ensures IsMergeOf(clients, ids + [next], Absorb(client, clients[next]))
  {
    var merged := Absorb(client, clients[next]);
    forall f: TextField ensures IsFirstFilled(clients, ids + [next], f, Text(merged, f)) {
      FirstFilledExtends(clients, ids, f, Text(client, f), next);
    }
    forall f: MoneyField
      ensures OrZero(Money(merged, f)) == Total(Column(clients, Elements(ids + [next]), f))
    {
      var column := Column(clients, Elements(ids + [next]), f);
      assert next in ids + [next];
      TotalSplit(column, next);
      assert column - {next} == Column(clients, Elements(ids), f);
    }
    forall f: MoneyField
      ensures Money(merged, f).None? <==> Money(clients[ids[0]], f).None? && AllZero(clients, ids + [next], f)
    {
      AllZeroExtends(clients, ids, f, next);
    }
  }

  lemma LinksAfterOneMore(db: Db, keep: int, earlier: seq<int>, remove: int, before: Db)
    requires CanMerge(db, keep, earlier + [remove]) && CanMerge(db, keep, earlier)
    requires GroupMerged(db, keep, earlier, before) && remove in before.clients
    ensures var after, removes := MergeOne(before, keep, remove), earlier + [remove];
            && InvoicesMoved(db.invoices, keep, removes, after.invoices)
            && NotesDropped(db.notes, removes, after.notes)
  {
    var removes := earlier + [remove];
    assert remove != keep by { assert removes[|earlier|] == remove; }
    assert forall id :: id in removes <==> id in earlier || id == remove;
  }

  lemma ClientsAfterOneMore(db: Db, keep: int, earlier: seq<int>, remove: int, before: Db)
    requires CanMerge(db, keep, earlier + [remove]) && CanMerge(db, keep, earlier)
    requires GroupMerged(db, keep, earlier, before) && remove in before.clients
    requires before.clients[remove] == db.clients[remove]
    ensures var after, removes := MergeOne(before, keep, remove), earlier + [remove];
            && after.clients.Keys == db.clients.Keys - Elements(removes)
            && (forall id :: id in after.clients && id != keep ==> after.clients[id] == db.clients[id])
            && keep in after.clients && IsMergeOf(db.clients, [keep] + removes, after.clients[keep])
  {
    var removes := earlier + [remove];
    assert remove != keep && remove !in earlier by {
      assert removes[|earlier|] == remove && forall i :: 0 <= i < |earlier| ==> removes[i] == earlier[i];
    }
    MergeExtends(db.clients, [keep] + earlier, before.clients[keep], remove);
    assert [keep] + earlier + [remove] == [keep] + removes;
    assert Elements(removes) == Elements(earlier) + {remove};
  }

  lemma {:induction false} MergeAllEffect(db: Db, keep: int, removes: seq<int>)
    requires CanMerge(db, keep, removes)
    ensures GroupMerged(db, keep, removes, MergeAll(db, keep, removes))
    decreases |removes|
  {
    if removes == [] {
      MergeOfOne(db.clients, keep);
      assert [keep] + removes == [keep];
    } else {
      var last := |removes| - 1;
      var earlier, remove := removes[..last], removes[last];
      var before := MergeAll(db, keep, earlier);
      MergeAllEffect(db, keep, earlier);
      assert removes == earlier + [remove];
      LinksAfterOneMore(db, keep, earlier, remove, before);
      ClientsAfterOneMore(db, keep, earlier, remove, before);
      forall f: MoneyField
        ensures TotalMoney(MergeAll(db, keep, removes), f) == TotalMoney(db, f)
      {
        MergeOneConservesMoney(before, keep, remove, f);
      }
    }
  }

  // ----- a whole run -----------------------------------------------------------------------

  /** The client that stands for `id` once the groups `done` are merged: the oldest of its group. */
  function Heir(db: Db, done: set<Key>, id: int): (heir: int)
    requires id in db.clients
    ensures heir in db.clients && KeyOf(db.clients[heir]) == KeyOf(db.clients[id])
  {
    var key := KeyOf(db.clients[id]);
    assert id in Members(db, key);
    if key in done then Least(Members(db, key)) else id
  }

  /** What the surviving client `id` holds once the groups `done` are merged. */
  ghost predicate ClientAsMerged(db: Db, done: set<Key>, id: int, client: Client)
    requires id in db.clients
  {
    var key := KeyOf(db.clients[id]);
    assert id in Members(db, key);
    if key in done then IsMergeOf(db.clients, OldestFirst(db, key), client)
    else client == db.clients[id]
  }

  ghost predicate ClientsMerged(db: Db, done: set<Key>, after: Db) {
    && (forall id :: id in after.clients ==> id in db.clients)
    && (forall id {:trigger id in after.clients} :: id in db.clients ==> (id in after.clients <==> Heir(db, done, id) == id))
    && (forall id :: id in after.clients ==> ClientAsMerged(db, done, id, after.clients[id]))
  }

  ghost predicate LinksMerged(db: Db, done: set<Key>, after: Db)
    requires Consistent(db)
  {
    && (forall i :: i in after.invoices <==> i in db.invoices)
    && (forall i :: i in db.invoices ==> after.invoices[i] == Heir(db, done, db.invoices[i]))
    && (forall n :: n in after.notes ==> n in db.notes && after.notes[n] == db.notes[n])
    && (forall n :: n in db.notes ==> (n in after.notes <==> db.notes[n] in after.clients))
  }

  /**
   * The tables `after` are the tables `db` with exactly the groups `done` merged. Stated against the
   * initial tables only, without reference to the order in which the groups were handled.
   */
  ghost predicate MergedFor(db: Db, done: set<Key>, after: Db)
    requires Consistent(db)
  {
    && ClientsMerged(db, done, after)
    && LinksMerged(db, done, after)
    && (forall f: MoneyField :: TotalMoney(after, f) == TotalMoney(db, f))
  }

  /** No client has lost its name or its email, whichever groups are merged. */
  lemma MergedForKeepsKeys(db: Db, done: set<Key>, after: Db, id: int)
    requires ClientsMerged(db, done, after) && id in after.clients
    ensures id in db.clients && KeyOf(after.clients[id]) == KeyOf(db.clients[id])
  {
    assert ClientAsMerged(db, done, id, after.clients[id]);
  }

  /** Merging other groups first does not change who belongs to a group: the groups stay disjoint. */
  lemma UntouchedGroup(db: Db, done: set<Key>, after: Db, key: Key)
    requires ClientsMerged(db, done, after) && key !in done
    ensures Members(after, key) == Members(db, key)
    ensures forall id :: id in Members(db, key) ==> id in after.clients && after.clients[id] == db.clients[id]
  {
    forall id | id in after.clients ensures KeyOf(after.clients[id]) == KeyOf(db.clients[id]) {
      MergedForKeepsKeys(db, done, after, id);
    }
    forall id | id in Members(db, key) ensures id in after.clients && after.clients[id] == db.clients[id] {
      assert Heir(db, done, id) == id;
      assert ClientAsMerged(db, done, id, after.clients[id]);
    }
    forall id ensures id in Members(after, key) <==> id in Members(db, key) {
    }
  }

  /** `removes` are the clients of the group `key` other than the oldest one, `keep`. */
  ghost predicate IsGroup(db: Db, key: Key, keep: int, removes: seq<int>) {
    && [keep] + removes == OldestFirst(db, key)
    && (forall id :: id in db.clients && KeyOf(db.clients[id]) == key ==> keep == Heir(db, {key}, id))
    && (forall id :: id in removes <==> id in db.clients && KeyOf(db.clients[id]) == key && id != keep)
  }

  lemma GroupOf(db: Db, key: Key)
    requires Members(db, key) != {}
    ensures OldestFirst(db, key) != []
    ensures IsGroup(db, key, OldestFirst(db, key)[0], OldestFirst(db, key)[1..])
  {
    var ids := Members(db, key);
    assert OldestFirst(db, key)[1..] == SortedIds(ids - {Least(ids)});
  }

  lemma HeirAfter(db: Db, done: set<Key>, key: Key, keep: int, removes: seq<int>, id: int)
    requires key !in done && IsGroup(db, key, keep, removes) && id in db.clients
    ensures Heir(db, done + {key}, id) == if Heir(db, done, id) in removes then keep else Heir(db, done, id)
  {
    if KeyOf(db.clients[id]) == key {
      assert Heir(db, done + {key}, id) == Heir(db, {key}, id);
    }
  }

  /** A merge only depends on the rows that are merged. */
  lemma SameRowsSameMerge(rows1: map<int, Client>, rows2: map<int, Client>, ids: seq<int>, client: Client)
    requires |ids| > 0
    requires forall i :: 0 <= i < |ids| ==> ids[i] in rows1 && ids[i] in rows2 && rows1[ids[i]] == rows2[ids[i]]
    requires IsMergeOf(rows1, ids, client)
    ensures IsMergeOf(rows2, ids, client)
  {
    forall f: TextField ensures IsFirstFilled(rows2, ids, f, Text(client, f)) {
      assert IsFirstFilled(rows1, ids, f, Text(client, f));
    }
    forall f: MoneyField ensures OrZero(Money(client, f)) == Total(Column(rows2, Elements(ids), f)) {
      assert Column(rows1, Elements(ids), f) == Column(rows2, Elements(ids), f);
    }
    forall f: MoneyField ensures AllZero(rows1, ids, f) <==> AllZero(rows2, ids, f) {
    }
  }

  lemma ClientsOneGroupLater(db: Db, done: set<Key>, middle: Db, key: Key, keep: int, removes: seq<int>, after: Db)
    requires ClientsMerged(db, done, middle) && key !in done && IsGroup(db, key, keep, removes)
    requires CanMerge(middle, keep, removes) && GroupMerged(middle, keep, removes, after)
    requires keep in db.clients && KeyOf(db.clients[keep]) == key
    requires IsMergeOf(db.clients, OldestFirst(db, key), after.clients[keep])
    ensures ClientsMerged(db, done + {key}, after)
  {
    forall id | id in after.clients ensures ClientAsMerged(db, done + {key}, id, after.clients[id]) {
      assert id in middle.clients && ClientAsMerged(db, done, id, middle.clients[id]);
      if id != keep {
        assert id !in removes;
      }
    }
    forall id | id in db.clients ensures id in after.clients <==> Heir(db, done + {key}, id) == id {
      HeirAfter(db, done, key, keep, removes, id);
    }
  }

  lemma LinksOneGroupLater(db: Db, done: set<Key>, middle: Db, key: Key, keep: int, removes: seq<int>, after: Db)
    requires Consistent(db) && ClientsMerged(db, done, middle) && LinksMerged(db, done, middle)
    requires key !in done && IsGroup(db, key, keep, removes)
    requires CanMerge(middle, keep, removes) && GroupMerged(middle, keep, removes, after)
    ensures LinksMerged(db, done + {key}, after)
  {
    forall i | i in db.invoices ensures after.invoices[i] == Heir(db, done + {key}, db.invoices[i]) {
      HeirAfter(db, done, key, keep, removes, db.invoices[i]);
    }
    forall n | n in db.notes ensures n in after.notes <==> db.notes[n] in after.clients {
    }
  }

  /** Groups can be merged one after the other: one more group is merged and nothing else changes. */
  lemma MergeGroupExtends(db: Db, done: set<Key>, middle: Db, key: Key)
    requires Consistent(db) && MergedFor(db, done, middle)
    requires key !in done && |Members(db, key)| > 1
    ensures MergedFor(db, done + {key}, MergeGroup(middle, key))
  {
    UntouchedGroup(db, done, middle, key);
    GroupOf(db, key);
    var ids := OldestFirst(db, key);
    var keep, removes := ids[0], ids[1..];
    assert [keep] + removes == ids && ids == OldestFirst(middle, key);
    var after := MergeAll(middle, keep, removes);
    MergeAllEffect(middle, keep, removes);
    assert forall i :: 0 <= i < |ids| ==> ids[i] in Members(db, key);
    SameRowsSameMerge(middle.clients, db.clients, ids, after.clients[keep]);
    ClientsOneGroupLater(db, done, middle, key, keep, removes, after);
    LinksOneGroupLater(db, done, middle, key, keep, removes, after);
  }

  lemma NothingMerged(db: Db)
    requires Consistent(db)
    ensures MergedFor(db, {}, db)
  {
  }

  lemma KeysOfOneMore(rows: seq<GroupRow>, n: nat)
    requires 0 < n <= |rows|
    requires forall i, j :: 0 <= i < j < |rows| ==> rows[i].key != rows[j].key
    ensures KeysOf(rows[..n]) == KeysOf(rows[..n - 1]) + {rows[n - 1].key}
    ensures rows[n - 1].key !in KeysOf(rows[..n - 1])
  {
  }

  /**
   * Every committed state of every run: after any number of groups, the tables are the initial ones
   * with exactly those groups merged.
   */
  lemma {:induction false} EveryCommit(db: Db, rows: seq<GroupRow>, n: nat)
    requires Consistent(db) && AreDuplicateGroups(db, rows) && n <= |rows|
    ensures MergedFor(db, KeysOf(rows[..n]), MergeGroups(db, rows[..n]))
  {
    if n == 0 {
      NothingMerged(db);
      assert KeysOf(rows[..n]) == {};
    } else {
      EveryCommit(db, rows, n - 1);
      OneCommitMore(db, rows, n);
    }
  }

  lemma OneCommitMore(db: Db, rows: seq<GroupRow>, n: nat)
    requires Consistent(db) && AreDuplicateGroups(db, rows) && 0 < n <= |rows|
    requires MergedFor(db, KeysOf(rows[..n - 1]), MergeGroups(db, rows[..n - 1]))
    ensures MergedFor(db, KeysOf(rows[..n]), MergeGroups(db, rows[..n]))
  {
    hide *;
    var earlier, key := rows[..n - 1], rows[n - 1].key;
    OneGroupMore(db, rows, n);
    MergeGroupExtends(db, KeysOf(earlier), MergeGroups(db, earlier), key);
    SameCommit(db, KeysOf(earlier) + {key}, KeysOf(rows[..n]), MergeGroup(MergeGroups(db, earlier), key), MergeGroups(db, rows[..n]));
  }

  lemma OneGroupMore(db: Db, rows: seq<GroupRow>, n: nat)
    requires AreDuplicateGroups(db, rows) && 0 < n <= |rows|
    ensures var earlier, key := rows[..n - 1], rows[n - 1].key;
            && MergeGroups(db, rows[..n]) == MergeGroup(MergeGroups(db, earlier), key)
            && KeysOf(rows[..n]) == KeysOf(earlier) + {key} && key !in KeysOf(earlier)
            && |Members(db, key)| > 1
  {
    assert rows[..n][..n - 1] == rows[..n - 1];
    KeysOfOneMore(rows, n);
  }

  lemma SameCommit(db: Db, done1: set<Key>, done2: set<Key>, after1: Db, after2: Db)
    requires Consistent(db) && done1 == done2 && after1 == after2 && MergedFor(db, done1, after1)
    ensures MergedFor(db, done2, after2)
  {
  }

  // ----- what the merged tables look like --------------------------------------------------

  /** Every invoice and every remaining note points at a client that still exists. */
  lemma MergedIsConsistent(db: Db, done: set<Key>, after: Db)
    requires Consistent(db) && MergedFor(db, done, after)
    ensures Consistent(after)
  {
    forall i | i in after.invoices ensures after.invoices[i] in after.clients {
      var heir := Heir(db, done, db.invoices[i]);
      assert Heir(db, done, heir) == heir;
    }
  }

  function AllKeys(db: Db): set<Key> {
    set id | id in db.clients :: KeyOf(db.clients[id])
  }

  predicate NoneShare(db: Db) {
    forall i, j :: i in db.clients && j in db.clients && KeyOf(db.clients[i]) == KeyOf(db.clients[j]) ==> i == j
  }

  lemma HeirIsLeast(db: Db, rows: seq<GroupRow>, id: int)
    requires IsGroupQuery(db, rows) && id in db.clients
    ensures id in Members(db, KeyOf(db.clients[id]))
    ensures Heir(db, KeysOf(rows), id) == Least(Members(db, KeyOf(db.clients[id])))
  {
    var members := Members(db, KeyOf(db.clients[id]));
    assert id in members;
    if |members| <= 1 {
      assert |members - {id}| == 0;
      assert members == {id};
    }
  }

  lemma SurvivesIff(db: Db, rows: seq<GroupRow>, after: Db, id: int)
    requires IsGroupQuery(db, rows) && ClientsMerged(db, KeysOf(rows), after) && id in db.clients
    ensures id in after.clients <==> forall other :: other in Members(db, KeyOf(db.clients[id])) ==> id <= other
  {
    HeirIsLeast(db, rows, id);
    assert id in after.clients <==> Heir(db, KeysOf(rows), id) == id;
  }

  lemma SurvivorsDiffer(db: Db, rows: seq<GroupRow>, after: Db, i: int, j: int)
    requires IsGroupQuery(db, rows) && ClientsMerged(db, KeysOf(rows), after)
    requires i in after.clients && j in after.clients && KeyOf(after.clients[i]) == KeyOf(after.clients[j])
    ensures i == j
  {
    MergedForKeepsKeys(db, KeysOf(rows), after, i);
    MergedForKeepsKeys(db, KeysOf(rows), after, j);
    HeirIsLeast(db, rows, i);
    HeirIsLeast(db, rows, j);
    assert Heir(db, KeysOf(rows), i) == i && Heir(db, KeysOf(rows), j) == j;
  }

  lemma KeysStay(db: Db, done: set<Key>, after: Db)
    requires ClientsMerged(db, done, after)
    ensures AllKeys(after) == AllKeys(db)
  {
    forall id | id in after.clients ensures KeyOf(after.clients[id]) in AllKeys(db) {
      MergedForKeepsKeys(db, done, after, id);
    }
    forall id | id in db.clients ensures KeyOf(db.clients[id]) in AllKeys(after) {
      var heir := Heir(db, done, id);
      assert Heir(db, done, heir) == heir;
      MergedForKeepsKeys(db, done, after, heir);
    }
  }

  /** With every duplicate group merged, exactly the oldest client of each (name, email) is left. */
  lemma OldestSurvive(db: Db, rows: seq<GroupRow>, after: Db)
    requires Consistent(db) && IsGroupQuery(db, rows) && MergedFor(db, KeysOf(rows), after)
    ensures forall id :: id in db.clients ==>
              (id in after.clients <==> forall other :: other in Members(db, KeyOf(db.clients[id])) ==> id <= other)
    ensures NoneShare(after)
    ensures AllKeys(after) == AllKeys(db)
  {
    forall id | id in db.clients
      ensures id in after.clients <==> forall other :: other in Members(db, KeyOf(db.clients[id])) ==> id <= other
    {
      SurvivesIff(db, rows, after, id);
    }
    forall i, j | i in after.clients && j in after.clients && KeyOf(after.clients[i]) == KeyOf(after.clients[j])
      ensures i == j
    {
      SurvivorsDiffer(db, rows, after, i, j);
    }
    KeysStay(db, KeysOf(rows), after);
  }

  /** Without two clients of the same name and email, the duplicate query comes back empty. */
  lemma NothingLeftToMerge(db: Db, rows: seq<GroupRow>)
    requires NoneShare(db) && AreDuplicateGroups(db, rows)
    ensures rows == []
  {
    if rows != [] {
      var members := Members(db, rows[0].key);
      var id := AnElement(members);
      assert |members - {id}| > 0;
      var other := AnElement(members - {id});
      assert false;
    }
  }

  /** The number `preview_duplicates` announces: all but one client of each group. */
  function Announced(rows: seq<GroupRow>): int {
    if rows == [] then 0 else Announced(rows[..|rows| - 1]) + rows[|rows| - 1].count - 1
  }

  lemma {:induction false} SizeAfter(db: Db, rows: seq<GroupRow>, n: nat)
    requires Consistent(db) && AreDuplicateGroups(db, rows) && n <= |rows|
    ensures |MergeGroups(db, rows[..n]).clients| == |db.clients| - Announced(rows[..n])
  {
    if n > 0 {
      var earlier, key := rows[..n - 1], rows[n - 1].key;
      var middle := MergeGroups(db, earlier);
      assert rows[..n][..n - 1] == earlier;
      SizeAfter(db, rows, n - 1);
      EveryCommit(db, rows, n - 1);
      KeysOfOneMore(rows, n);
      UntouchedGroup(db, KeysOf(earlier), middle, key);
      var ids := OldestFirst(middle, key);
      MergeAllSize(middle, ids[0], ids[1..]);
    }
  }

  lemma MergeAllSize(db: Db, keep: int, removes: seq<int>)
    requires CanMerge(db, keep, removes)
    ensures |MergeAll(db, keep, removes).clients| == |db.clients| - |removes|
  {
    var merged := MergeAll(db, keep, removes);
    DistinctElements(removes);
    assert Elements(removes) <= db.clients.Keys;
    assert |merged.clients.Keys| == |db.clients.Keys| - |Elements(removes)|;
  }

  lemma KeysAreClients(db: Db)
    requires NoneShare(db)
    ensures |AllKeys(db)| == |db.clients|
  {
    var labels := map id | id in db.clients :: KeyOf(db.clients[id]);
    assert forall i, j :: i in labels && j in labels && labels[i] == labels[j] ==> i == j;
    DistinctLabels(labels);
    assert labels.Keys == db.clients.Keys && labels.Values == AllKeys(db);
  }

  /**
   * The preview announces exactly the number of clients an error-free cleanup deletes: the clients
   * less the distinct (name, email) pairs. A second cleanup finds nothing.
   */
  lemma PreviewPredictsCleanup(db: Db, rows: seq<GroupRow>)
    requires Consistent(db) && IsGroupQuery(db, rows)
    ensures Announced(rows) == |db.clients| - |MergeGroups(db, rows).clients| == |db.clients| - |AllKeys(db)|
    ensures forall again :: AreDuplicateGroups(MergeGroups(db, rows), again) ==> again == []
  {
    var after := MergeGroups(db, rows);
    assert rows[..|rows|] == rows;
    SizeAfter(db, rows, |rows|);
    EveryCommit(db, rows, |rows|);
    OldestSurvive(db, rows, after);
    KeysAreClients(after);
    forall again | AreDuplicateGroups(after, again) ensures again == [] {
      NothingLeftToMerge(after, again);
    }
  }

  /** When its turn comes, a group still has all its clients, and merging it removes all but one. */
  lemma GroupStillWhole(db: Db, rows: seq<GroupRow>, g: nat)
    requires Consistent(db) && AreDuplicateGroups(db, rows) && g < |rows|
    ensures |OldestFirst(MergeGroups(db, rows[..g]), rows[g].key)| == rows[g].count > 1
    ensures MergeGroups(db, rows[..g + 1]) == MergeGroup(MergeGroups(db, rows[..g]), rows[g].key)
    ensures |MergeGroups(db, rows[..g + 1]).clients| == |MergeGroups(db, rows[..g]).clients| - (rows[g].count - 1)
    ensures |MergeGroups(db, rows[..g]).clients| >= rows[g].count
  {
    EveryCommit(db, rows, g);
    KeysOfOneMore(rows, g + 1);
    UntouchedGroup(db, KeysOf(rows[..g]), MergeGroups(db, rows[..g]), rows[g].key);
    assert rows[..g + 1][..g] == rows[..g];
    SizeAfter(db, rows, g + 1);
    SizeAfter(db, rows, g);
    var middle := MergeGroups(db, rows[..g]);
    SubsetSize(Members(middle, rows[g].key), middle.clients.Keys);
  }

  lemma NoTurnsYet(db: Db, rows: seq<GroupRow>)
    ensures MergeGroups(db, rows[..0]) == db && Announced(rows[..0]) == 0 && rows[0..] == rows
  {
    assert rows[..0] == [];
  }

  lemma NoTurnsLeft(rows: seq<GroupRow>, left: nat)
    ensures GroupsDone(rows[|rows|..], left) == 0 && rows[..|rows|] == rows
  {
  }

  lemma TurnAhead(db: Db, rows: seq<GroupRow>, g: nat)
    requires Consistent(db) && AreDuplicateGroups(db, rows) && g < |rows|
    ensures |Members(MergeGroups(db, rows[..g]), rows[g].key)| == rows[g].count > 1
    ensures MergeGroups(db, rows[..g + 1]) == MergeGroup(MergeGroups(db, rows[..g]), rows[g].key)
  {
    GroupStillWhole(db, rows, g);
  }

  /** How many groups are committed before the `budget` of removals and commits is used up. */
  function GroupsDone(rows: seq<GroupRow>, budget: nat): (done: nat)
    ensures done <= |rows|
  {
    if |rows| == 0 || budget < rows[0].count then 0 else 1 + GroupsDone(rows[1..], budget - rows[0].count)
  }

  /** The number of removals the script reports in the end. */
  function Printed(rows: seq<GroupRow>, budget: nat): int {
    if GroupsDone(rows, budget) == |rows| then Announced(rows) else budget - GroupsDone(rows, budget)
  }

  lemma {:induction false} CostOfDone(rows: seq<GroupRow>, budget: nat, n: nat)
    requires forall i :: 0 <= i < |rows| ==> rows[i].count > 1
    requires n <= GroupsDone(rows, budget)
    ensures Announced(rows[..n]) + n <= budget
    ensures GroupsDone(rows, budget) == n + GroupsDone(rows[n..], budget - n - Announced(rows[..n]))
  {
    if n > 0 {
      CostOfDone(rows, budget, n - 1);
      assert rows[n - 1..][0] == rows[n - 1] && rows[n - 1..][1..] == rows[n..];
      assert rows[..n][..n - 1] == rows[..n - 1];
    } else {
      assert rows[0..] == rows;
    }
  }

  lemma OneMoreTurn(rows: seq<GroupRow>, done: nat, left: nat)
    requires done < |rows| && rows[done].count > 0
    ensures GroupsDone(rows[done..], left)
         == if left < rows[done].count then 0 else 1 + GroupsDone(rows[done + 1..], left - rows[done].count)
    ensures Announced(rows[..done + 1]) == Announced(rows[..done]) + rows[done].count - 1
  {
    assert rows[done..][0] == rows[done] && rows[done..][1..] == rows[done + 1..];
    assert rows[..done + 1][..done] == rows[..done];
  }

  /**
   * After an error the script reports too much exactly when some removal was carried out in the turn that
   * failed, its commit included: the removals of that turn are counted and dropped.
   */
  lemma PrintedIsDeletedIff(db: Db, rows: seq<GroupRow>, budget: nat)
    requires Consistent(db) && IsGroupQuery(db, rows)
    ensures var done := GroupsDone(rows, budget);
            var deleted := |db.clients| - |MergeGroups(db, rows[..done]).clients|;
            && Printed(rows, budget) >= deleted
            && (Printed(rows, budget) == deleted <==> done == |rows| || budget == Announced(rows[..done]) + done)
    ensures GroupsDone(rows, budget) == |rows| <==> budget >= Announced(rows) + |rows|
  {
    var done := GroupsDone(rows, budget);
    SizeAfter(db, rows, done);
    CostOfDone(rows, budget, done);
    assert rows[..|rows|] == rows;
    if done < |rows| {
      NextDoesNotFit(rows, budget);
    }
  }

  /** What is reported beyond the deletions is less than one group. */
  lemma OvershootIsBounded(db: Db, rows: seq<GroupRow>, budget: nat)
    requires Consistent(db) && AreDuplicateGroups(db, rows) && GroupsDone(rows, budget) < |rows|
    ensures var done := GroupsDone(rows, budget);
            Printed(rows, budget) - (|db.clients| - |MergeGroups(db, rows[..done]).clients|) < rows[done].count
  {
    SizeAfter(db, rows, GroupsDone(rows, budget));
    FailingTurn(rows, budget);
  }

  lemma FailingTurn(rows: seq<GroupRow>, budget: nat)
    requires forall i :: 0 <= i < |rows| ==> rows[i].count > 1
    requires GroupsDone(rows, budget) < |rows|
    ensures budget < Announced(rows[..GroupsDone(rows, budget)]) + GroupsDone(rows, budget) + rows[GroupsDone(rows, budget)].count
  {
    var done := GroupsDone(rows, budget);
    CostOfDone(rows, budget, done);
    OneMoreTurn(rows, done, budget - done - Announced(rows[..done]));
  }

  /** Two statements per client are enough for every run. */
  lemma EnoughForAll(db: Db, rows: seq<GroupRow>)
    requires Consistent(db) && AreDuplicateGroups(db, rows)
    ensures Announced(rows) + |rows| <= 2 * |db.clients|
  {
    SizeAfter(db, rows, |rows|);
    assert rows[..|rows|] == rows;
    FewerGroupsThanRemovals(rows);
  }

  lemma {:induction false} FewerGroupsThanRemovals(rows: seq<GroupRow>)
    requires forall i :: 0 <= i < |rows| ==> rows[i].count > 1
    ensures |rows| <= Announced(rows)
  {
    if rows != [] {
      FewerGroupsThanRemovals(rows[..|rows| - 1]);
    }
  }

  lemma NextDoesNotFit(rows: seq<GroupRow>, budget: nat)
    requires forall i :: 0 <= i < |rows| ==> rows[i].count > 1
    requires GroupsDone(rows, budget) < |rows|
    ensures budget < Announced(rows) + |rows|
  {
    var done := GroupsDone(rows, budget);
    CostOfDone(rows, budget, done);
    assert rows[done..][0] == rows[done];
    assert rows[..done + 1][..done] == rows[..done];
    AnnouncedGrows(rows, done + 1, |rows|);
    assert rows[..|rows|] == rows;
  }

  lemma {:induction false} AnnouncedGrows(rows: seq<GroupRow>, m: nat, n: nat)
    requires m <= n <= |rows| && forall i :: 0 <= i < |rows| ==> rows[i].count > 1
    ensures Announced(rows[..m]) <= Announced(rows[..n])
    decreases n
  {
    if m < n {
      AnnouncedGrows(rows, m, n - 1);
      assert rows[..n][..n - 1] == rows[..n - 1];
    }
  }

  // ----- the same, told from the columns -----------------------------------------------------

  predicate Agree(a: Client, b: Client) {
    a.name == b.name && a.email == b.email
  }

  /** The clients that agree with client `id`, itself included. */
  function Peers(clients: map<int, Client>, id: int): set<int>
    requires id in clients
  {
    set other | other in clients && Agree(clients[other], clients[id])
  }

  lemma PeersAreMembers(db: Db, id: int)
    requires id in db.clients
    ensures id in Peers(db.clients, id) && Peers(db.clients, id) == Members(db, KeyOf(db.clients[id]))
    ensures |Peers(db.clients, id)| > 1 <==> exists other :: other in db.clients && other != id && Agree(db.clients[other], db.clients[id])
  {
    var peers := Peers(db.clients, id);
    forall other ensures other in peers <==> other in Members(db, KeyOf(db.clients[id])) {
    }
    assert |peers| == |peers - {id}| + 1;
    if |peers| > 1 {
      var other := AnElement(peers - {id});
      assert other in db.clients && other != id;
    }
    if other :| other in db.clients && other != id && Agree(db.clients[other], db.clients[id]) {
      assert other in peers - {id};
    }
  }

  /** Row `i` of the query's answer stands for this name and email. */
  predicate RowFor(rows: seq<GroupRow>, i: nat, client: Client) {
    i < |rows| && rows[i].key.name == client.name && rows[i].key.email == client.email
  }

  /** What the GROUP BY query answers, told from the name and email columns. */
  lemma QueryInColumns(db: Db, rows: seq<GroupRow>)
    requires IsGroupQuery(db, rows)
    ensures forall i, j :: 0 <= i < j < |rows| ==> rows[i].key.name != rows[j].key.name || rows[i].key.email != rows[j].key.email
    ensures forall i: nat, id :: id in db.clients && RowFor(rows, i, db.clients[id]) ==> rows[i].count == |Peers(db.clients, id)| > 1
    ensures forall id, other :: id in db.clients && other in db.clients && other != id && Agree(db.clients[other], db.clients[id]) ==>
              exists i: nat :: RowFor(rows, i, db.clients[id])
  {
    forall i, j | 0 <= i < j < |rows| ensures rows[i].key.name != rows[j].key.name || rows[i].key.email != rows[j].key.email {
      assert rows[i].key != rows[j].key;
    }
    forall i: nat, id | id in db.clients && RowFor(rows, i, db.clients[id]) ensures rows[i].count == |Peers(db.clients, id)| > 1 {
      PeersAreMembers(db, id);
      assert rows[i].key == KeyOf(db.clients[id]);
    }
    forall id, other | id in db.clients && other in db.clients && other != id && Agree(db.clients[other], db.clients[id])
      ensures exists i: nat :: RowFor(rows, i, db.clients[id])
    {
      PeersAreMembers(db, id);
      var i: nat :| i < |rows| && rows[i].key == KeyOf(db.clients[id]);
      assert RowFor(rows, i, db.clients[id]);
    }
  }

  /** Every row of the answer stands for some client. */
  lemma RowHasClient(db: Db, rows: seq<GroupRow>, i: nat) returns (id: int)
    requires IsGroupQuery(db, rows) && i < |rows|
    ensures id in db.clients && RowFor(rows, i, db.clients[id])
  {
    id := AnElement(Members(db, rows[i].key));
  }

  /** Merging a group leaves every client of another name or another email alone. */
  lemma OthersAreLeftAlone(db: Db, key: Key, id: int)
    requires id in db.clients && (db.clients[id].name != key.name || db.clients[id].email != key.email)
    ensures id in MergeGroup(db, key).clients && MergeGroup(db, key).clients[id] == db.clients[id]
  {
    var ids := OldestFirst(db, key);
    if |ids| > 1 {
      MergeAllEffect(db, ids[0], ids[1..]);
      assert forall i :: 0 <= i < |ids| ==> ids[i] != id;
      assert id !in ids[1..];
    }
  }

  /** A client whose name and email no other client has together survives every run unchanged, however far it gets. */
  lemma LoneClientsSurvive(db: Db, rows: seq<GroupRow>, n: nat, id: int)
    requires Consistent(db) && AreDuplicateGroups(db, rows) && n <= |rows| && id in db.clients
    requires forall other :: other in db.clients && other != id ==>
               db.clients[other].name != db.clients[id].name || db.clients[other].email != db.clients[id].email
    ensures var after := MergeGroups(db, rows[..n]);
            id in after.clients && after.clients[id] == db.clients[id]
  {
    EveryCommit(db, rows, n);
    PeersAreMembers(db, id);
    var after := MergeGroups(db, rows[..n]);
    assert KeyOf(db.clients[id]) !in KeysOf(rows[..n]);
    assert Heir(db, KeysOf(rows[..n]), id) == id;
    assert id in after.clients && ClientAsMerged(db, KeysOf(rows[..n]), id, after.clients[id]);
  }

  predicate Blank(text: Option<string>) {
    text == None || text == Some("")
  }

  function Amount(money: Option<real>): real {
    match money
    case None => 0.0
    case Some(x) => x
  }

  /** `text` is the first value, in the order of the ids, that is not blank; if all are, it is that of `keep`. */
  ghost predicate IsFirstNonBlank(texts: map<int, Option<string>>, keep: int, text: Option<string>)
    requires keep in texts
  {
    || (exists id :: id in texts && !Blank(texts[id]) && text == texts[id] && forall other :: other in texts && other < id ==> Blank(texts[other]))
    || ((forall id :: id in texts ==> Blank(texts[id])) && text == texts[keep])
  }

  /** The client holds, column by column, what the given group of clients held together, `id` among them. */
  ghost predicate HoldsTogether(clients: map<int, Client>, group: set<int>, id: int, client: Client)
    requires id in group && group <= clients.Keys
  {
    && Agree(client, clients[id])
    && IsFirstNonBlank(map other | other in group :: clients[other].phone, id, client.phone)
    && IsFirstNonBlank(map other | other in group :: clients[other].address, id, client.address)
    && IsFirstNonBlank(map other | other in group :: clients[other].preferredCurrency, id, client.preferredCurrency)
    && Amount(client.balance) == Total(map other | other in group :: Amount(clients[other].balance))
    && Amount(client.paidAmount) == Total(map other | other in group :: Amount(clients[other].paidAmount))
    && (client.balance == None <==>
          clients[id].balance == None && forall other :: other in group ==> Amount(clients[other].balance) == 0.0)
    && (client.paidAmount == None <==>
          clients[id].paidAmount == None && forall other :: other in group ==> Amount(clients[other].paidAmount) == 0.0)
  }

  lemma FirstFilledIsNonBlank(clients: map<int, Client>, ids: seq<int>, field: TextField, text: Option<string>, texts: map<int, Option<string>>)
    requires |ids| > 0 && Ascending(ids) && forall i :: 0 <= i < |ids| ==> ids[i] in clients
    requires IsFirstFilled(clients, ids, field, text)
    requires ids[0] in texts && (forall id :: id in texts <==> id in ids)
    requires forall id :: id in texts ==> id in clients && texts[id] == Text(clients[id], field)
    ensures IsFirstNonBlank(texts, ids[0], text)
  {
    if i :| 0 <= i < |ids| && IsFilled(Text(clients[ids[i]], field)) && text == Text(clients[ids[i]], field)
            && forall j :: 0 <= j < i ==> !IsFilled(Text(clients[ids[j]], field)) {
      var id := ids[i];
      assert id in texts && !Blank(texts[id]) && text == texts[id];
      forall other | other in texts && other < id ensures Blank(texts[other]) {
        var j :| 0 <= j < |ids| && ids[j] == other;
        assert j < i;
      }
    } else {
      forall id | id in texts ensures Blank(texts[id]) {
        var j :| 0 <= j < |ids| && ids[j] == id;
      }
    }
  }

  lemma TextsTogether(clients: map<int, Client>, ids: seq<int>, client: Client)
    requires |ids| > 0 && Ascending(ids) && (forall i :: 0 <= i < |ids| ==> ids[i] in clients) && IsMergeOf(clients, ids, client)
    ensures var group := Elements(ids);
            && IsFirstNonBlank(map other | other in group :: clients[other].phone, ids[0], client.phone)
            && IsFirstNonBlank(map other | other in group :: clients[other].address, ids[0], client.address)
            && IsFirstNonBlank(map other | other in group :: clients[other].preferredCurrency, ids[0], client.preferredCurrency)
  {
    var group := Elements(ids);
    assert IsFirstFilled(clients, ids, Phone, client.phone) by { assert Text(client, Phone) == client.phone; }
    assert IsFirstFilled(clients, ids, Address, client.address) by { assert Text(client, Address) == client.address; }
    assert IsFirstFilled(clients, ids, PreferredCurrency, client.preferredCurrency) by {
      assert Text(client, PreferredCurrency) == client.preferredCurrency;
    }
    FirstFilledIsNonBlank(clients, ids, Phone, client.phone, map other | other in group :: clients[other].phone);
    FirstFilledIsNonBlank(clients, ids, Address, client.address, map other | other in group :: clients[other].address);
    FirstFilledIsNonBlank(clients, ids, PreferredCurrency, client.preferredCurrency,
                          map other | other in group :: clients[other].preferredCurrency);
  }

  lemma ColumnsAreAmounts(clients: map<int, Client>, group: set<int>)
    requires group <= clients.Keys
    ensures Column(clients, group, Balance) == map other | other in group :: Amount(clients[other].balance)
    ensures Column(clients, group, PaidAmount) == map other | other in group :: Amount(clients[other].paidAmount)
  {
    var balances := map other | other in group :: Amount(clients[other].balance);
    var paid := map other | other in group :: Amount(clients[other].paidAmount);
    assert balances.Keys == Column(clients, group, Balance).Keys && paid.Keys == Column(clients, group, PaidAmount).Keys;
    assert forall id :: id in group ==> balances[id] == Column(clients, group, Balance)[id];
    assert forall id :: id in group ==> paid[id] == Column(clients, group, PaidAmount)[id];
  }

  lemma MergeHoldsTogether(clients: map<int, Client>, ids: seq<int>, client: Client)
    requires |ids| > 0 && Ascending(ids) && (forall i :: 0 <= i < |ids| ==> ids[i] in clients) && IsMergeOf(clients, ids, client)
    ensures HoldsTogether(clients, Elements(ids), ids[0], client)
  {
    TextsTogether(clients, ids, client);
    ColumnsAreAmounts(clients, Elements(ids));
    assert OrZero(Money(client, Balance)) == Total(Column(clients, Elements(ids), Balance));
    assert OrZero(Money(client, PaidAmount)) == Total(Column(clients, Elements(ids), PaidAmount));
    NoneInColumns(clients, ids, client);
  }

  lemma NoneInColumns(clients: map<int, Client>, ids: seq<int>, client: Client)
    requires |ids| > 0 && (forall i :: 0 <= i < |ids| ==> ids[i] in clients) && IsMergeOf(clients, ids, client)
    ensures client.balance == None <==>
              clients[ids[0]].balance == None && forall other :: other in Elements(ids) ==> Amount(clients[other].balance) == 0.0
    ensures client.paidAmount == None <==>
              clients[ids[0]].paidAmount == None && forall other :: other in Elements(ids) ==> Amount(clients[other].paidAmount) == 0.0
  {
    AllZeroIff(clients, ids, Balance);
    AllZeroIff(clients, ids, PaidAmount);
    assert Money(client, Balance).None? <==> Money(clients[ids[0]], Balance).None? && AllZero(clients, ids, Balance);
    assert Money(client, PaidAmount).None? <==> Money(clients[ids[0]], PaidAmount).None? && AllZero(clients, ids, PaidAmount);
    assert forall other :: other in Elements(ids) ==>
             OrZero(Money(clients[other], Balance)) == Amount(clients[other].balance)
             && OrZero(Money(clients[other], PaidAmount)) == Amount(clients[other].paidAmount);
  }

  lemma AllZeroIff(clients: map<int, Client>, ids: seq<int>, field: MoneyField)
    requires forall i :: 0 <= i < |ids| ==> ids[i] in clients
    ensures AllZero(clients, ids, field) <==> forall other :: other in Elements(ids) ==> OrZero(Money(clients[other], field)) == 0.0
  {
    if forall other :: other in Elements(ids) ==> OrZero(Money(clients[other], field)) == 0.0 {
      forall i | 0 <= i < |ids| ensures OrZero(Money(clients[ids[i]], field)) == 0.0 {
        assert ids[i] in Elements(ids);
      }
    }
  }

  lemma AloneHoldsTogether(clients: map<int, Client>, id: int)
    requires id in clients
    ensures HoldsTogether(clients, {id}, id, clients[id])
  {
    MergeOfOne(clients, id);
    MergeHoldsTogether(clients, [id], clients[id]);
    assert Elements([id]) == {id};
  }

  /**
   * A complete cleanup, told from the columns alone: a client survives exactly if none that agrees with it in
   * name and email is older; no two survivors agree; each holds what the agreeing clients held together.
   */
  lemma CleanupInColumns(db: Db, rows: seq<GroupRow>)
    requires Consistent(db) && IsGroupQuery(db, rows)
    ensures var after := MergeGroups(db, rows);
            && (forall id :: id in after.clients <==>
                  id in db.clients && forall other :: other in db.clients && Agree(db.clients[other], db.clients[id]) ==> id <= other)
            && (forall i, j :: i in after.clients && j in after.clients && i != j ==> !Agree(after.clients[i], after.clients[j]))
            && (forall id :: id in after.clients ==>
                  id in Peers(db.clients, id) && HoldsTogether(db.clients, Peers(db.clients, id), id, after.clients[id]))
  {
    var after, done := MergeGroups(db, rows), KeysOf(rows);
    assert rows[..|rows|] == rows;
    EveryCommit(db, rows, |rows|);
    forall id | id in db.clients
      ensures id in after.clients <==> forall other :: other in db.clients && Agree(db.clients[other], db.clients[id]) ==> id <= other
    {
      OldestOfPeers(db, rows, after, id);
    }
    forall id | id in after.clients
      ensures id in db.clients && id in Peers(db.clients, id) && HoldsTogether(db.clients, Peers(db.clients, id), id, after.clients[id])
    {
      SurvivorInColumns(db, rows, after, id);
    }
    forall i, j | i in after.clients && j in after.clients && i != j ensures !Agree(after.clients[i], after.clients[j]) {
      if KeyOf(after.clients[i]) == KeyOf(after.clients[j]) {
        SurvivorsDiffer(db, rows, after, i, j);
      }
    }
  }

  lemma OldestOfPeers(db: Db, rows: seq<GroupRow>, after: Db, id: int)
    requires IsGroupQuery(db, rows) && ClientsMerged(db, KeysOf(rows), after) && id in db.clients
    ensures id in after.clients <==> forall other :: other in db.clients && Agree(db.clients[other], db.clients[id]) ==> id <= other
  {
    SurvivesIff(db, rows, after, id);
    PeersAreMembers(db, id);
    assert forall other :: other in db.clients && Agree(db.clients[other], db.clients[id]) <==> other in Peers(db.clients, id);
  }

  lemma SurvivorInColumns(db: Db, rows: seq<GroupRow>, after: Db, id: int)
    requires IsGroupQuery(db, rows) && ClientsMerged(db, KeysOf(rows), after) && id in after.clients
    ensures id in db.clients && id in Peers(db.clients, id) && HoldsTogether(db.clients, Peers(db.clients, id), id, after.clients[id])
  {
    var key := KeyOf(db.clients[id]);
    PeersAreMembers(db, id);
    HeirIsLeast(db, rows, id);
    assert Heir(db, KeysOf(rows), id) == id && ClientAsMerged(db, KeysOf(rows), id, after.clients[id]);
    if key in KeysOf(rows) {
      GroupOf(db, key);
      var ids := OldestFirst(db, key);
      assert ids[0] == id && Elements(ids) == Members(db, key);
      MergeHoldsTogether(db.clients, ids, after.clients[id]);
    } else {
      assert Peers(db.clients, id) == {id} by {
        assert |Peers(db.clients, id) - {id}| == 0;
      }
      AloneHoldsTogether(db.clients, id);
    }
  }

  /** `oldest` has the smallest id among the clients that agree with client `id`. */
  predicate IsOldestPeer(clients: map<int, Client>, id: int, oldest: int)
    requires id in clients
  {
    && oldest in clients && Agree(clients[oldest], clients[id])
    && forall other :: other in clients && Agree(clients[other], clients[id]) ==> oldest <= other
  }

  /**
   * The links at every commit, told from the columns: each invoice is still its client's, or belongs to the
   * oldest client that agrees with its former one; a note keeps its client and goes with it.
   */
  lemma LinksInColumns(db: Db, rows: seq<GroupRow>, n: nat)
    requires Consistent(db) && AreDuplicateGroups(db, rows) && n <= |rows|
    ensures var after := MergeGroups(db, rows[..n]);
            && (forall i :: i in after.invoices <==> i in db.invoices)
            && (forall i :: i in db.invoices ==> after.invoices[i] in after.clients)
            && (forall i :: i in db.invoices ==> after.invoices[i] == db.invoices[i] || IsOldestPeer(db.clients, db.invoices[i], after.invoices[i]))
            && (forall m :: m in after.notes <==> m in db.notes && db.notes[m] in after.clients)
            && (forall m :: m in after.notes ==> after.notes[m] == db.notes[m])
  {
    EveryCommit(db, rows, n);
    var after, done := MergeGroups(db, rows[..n]), KeysOf(rows[..n]);
    MergedIsConsistent(db, done, after);
    forall i | i in db.invoices
      ensures after.invoices[i] == db.invoices[i] || IsOldestPeer(db.clients, db.invoices[i], after.invoices[i])
    {
      assert after.invoices[i] == Heir(db, done, db.invoices[i]);
      HeirIsOldestPeer(db, done, db.invoices[i]);
    }
  }

  lemma HeirIsOldestPeer(db: Db, done: set<Key>, id: int)
    requires id in db.clients
    ensures Heir(db, done, id) == id || IsOldestPeer(db.clients, id, Heir(db, done, id))
  {
    PeersAreMembers(db, id);
    var peers := Peers(db.clients, id);
    assert forall other :: other in db.clients && Agree(db.clients[other], db.clients[id]) ==> other in peers;
  }

  /** At every commit both money columns add up to what they did, a missing amount counting as zero. */
  lemma MoneyInColumns(db: Db, rows: seq<GroupRow>, n: nat)
    requires Consistent(db) && AreDuplicateGroups(db, rows) && n <= |rows|
    ensures var after := MergeGroups(db, rows[..n]);
            && Total(map id | id in after.clients :: Amount(after.clients[id].balance)) == Total(map id | id in db.clients :: Amount(db.clients[id].balance))
            && Total(map id | id in after.clients :: Amount(after.clients[id].paidAmount)) == Total(map id | id in db.clients :: Amount(db.clients[id].paidAmount))
  {
    EveryCommit(db, rows, n);
    var after := MergeGroups(db, rows[..n]);
    TotalsOfAmounts(db);
    TotalsOfAmounts(after);
    assert TotalMoney(after, Balance) == TotalMoney(db, Balance) && TotalMoney(after, PaidAmount) == TotalMoney(db, PaidAmount);
  }

  lemma TotalsOfAmounts(db: Db)
    ensures TotalMoney(db, Balance) == Total(map id | id in db.clients :: Amount(db.clients[id].balance))
    ensures TotalMoney(db, PaidAmount) == Total(map id | id in db.clients :: Amount(db.clients[id].paidAmount))
  {
    ColumnsAreAmounts(db.clients, db.clients.Keys);
    assert (map id | id in db.clients :: Amount(db.clients[id].balance)) == map id | id in db.clients.Keys :: Amount(db.clients[id].balance);
    assert (map id | id in db.clients :: Amount(db.clients[id].paidAmount)) == map id | id in db.clients.Keys :: Amount(db.clients[id].paidAmount);
  }

  /** What the preview announces: the clients less the different pairs of name and email. */
  lemma PreviewInColumns(db: Db, rows: seq<GroupRow>)
    requires Consistent(db) && IsGroupQuery(db, rows)
    ensures Announced(rows) == |db.clients| - |set id | id in db.clients :: (db.clients[id].name, db.clients[id].email)|
  {
    PreviewPredictsCleanup(db, rows);
    var pairs := set id | id in db.clients :: (db.clients[id].name, db.clients[id].email);
    forall pair | pair in pairs ensures pair in set key | key in AllKeys(db) :: (key.name, key.email) {
      var id :| id in db.clients && pair == (db.clients[id].name, db.clients[id].email);
      assert KeyOf(db.clients[id]) in AllKeys(db);
    }
    assert pairs == set key | key in AllKeys(db) :: (key.name, key.email);
    PairsAreKeys(AllKeys(db), pairs);
  }

  lemma {:induction false} PairsAreKeys(keys: set<Key>, pairs: set<(Option<string>, Option<string>)>)
    requires pairs == set key | key in keys :: (key.name, key.email)
    ensures |pairs| == |keys|
    decreases |keys|
  {
    if keys != {} {
      var key := AnElement(keys);
      var pair := (key.name, key.email);
      assert pair in pairs;
      assert pairs - {pair} == set other | other in keys - {key} :: (other.name, other.email);
      PairsAreKeys(keys - {key}, pairs - {pair});
    }
  }

  // ----- two examples ----------------------------------------------------------------------

  const TWIN := Client(Some("Ann"), Some("ann@example.com"), None, None, None, Some(5.0), None)

  /** Two clients with the same name and email; an invoice and a note belong to the younger one. */
  const TWINS := Db(map[1 := TWIN, 2 := TWIN], map[10 := 2], map[20 := 2])

  lemma TwinsAreOneGroup()
    ensures Members(TWINS, KeyOf(TWIN)) == {1, 2} && Least({1, 2}) == 1
    ensures Consistent(TWINS) && IsGroupQuery(TWINS, [GroupRow(KeyOf(TWIN), 2)])
  {
    assert Members(TWINS, KeyOf(TWIN)) == {1, 2};
    var rows := [GroupRow(KeyOf(TWIN), 2)];
    assert rows[0].key in KeysOf(rows);
  }

  /** The commit fails after the removal: the script reports one removed client and none is gone. */
  lemma OvershootExample()
    ensures var rows := [GroupRow(KeyOf(TWIN), 2)];
            && IsGroupQuery(TWINS, rows)
            && GroupsDone(rows, 1) == 0 && Printed(rows, 1) == 1
            && MergeGroups(TWINS, rows[..0]) == TWINS
  {
    TwinsAreOneGroup();
  }

  lemma HeirOfTwin(id: int)
    requires id == 1 || id == 2
    ensures id in TWINS.clients && Heir(TWINS, {KeyOf(TWIN)}, id) == 1
  {
    TwinsAreOneGroup();
  }

  lemma MergedTwins(after: Db)
    requires Consistent(TWINS) && MergedFor(TWINS, {KeyOf(TWIN)}, after)
    ensures 1 in after.clients && 2 !in after.clients
    ensures 10 in after.invoices && after.invoices[10] == 1 && 20 !in after.notes
  {
    HeirOfTwin(1);
    HeirOfTwin(2);
    assert 1 in after.clients && 2 !in after.clients;
    assert 10 in TWINS.invoices && 20 in TWINS.notes;
  }

  /** Merging moves the invoice of the younger client and loses its note. */
  lemma LostNoteExample()
    ensures var after := MergeGroup(TWINS, KeyOf(TWIN));
            && 2 in TWINS.clients && 2 !in after.clients && 1 in after.clients
            && TWINS.invoices[10] == 2 && 10 in after.invoices && after.invoices[10] == 1
            && 20 in TWINS.notes && 20 !in after.notes
  {
    TwinsAreOneGroup();
    NothingMerged(TWINS);
    MergeGroupExtends(TWINS, {}, TWINS, KeyOf(TWIN));
    assert {} + {KeyOf(TWIN)} == {KeyOf(TWIN)};
    MergedTwins(MergeGroup(TWINS, KeyOf(TWIN)));
  }

  lemma SubsetSize(part: set<int>, whole: set<int>)
    requires part <= whole
    ensures |part| <= |whole|
  {
    assert |whole| == |part| + |whole - part|;
  }

  // ----- the script ------------------------------------------------------------------------

  /** One tenant's database: the committed tables, and the tables as the open session sees them. */
  class TenantDatabase {
    var committed: Db
    var session: Db

    /** UPDATE of the removed client's invoices. */
    method RepointInvoices(remove: int, keep: int)
      modifies this`session
      ensures session == old(session).(invoices := Repoint(old(session).invoices, remove, keep))
    {
      session := session.(invoices := Repoint(session.invoices, remove, keep));
    }

    /** The field-by-field merge, written as the script writes it. */
    method MergeFields(keep: int, remove: int)
      requires keep in session.clients && remove in session.clients
      modifies this`session
      ensures session == old(session).(clients := old(session).clients[
                keep := Absorb(old(session).clients[keep], old(session).clients[remove])])
    {
      var kept, removed := session.clients[keep], session.clients[remove];
      if IsFilled(removed.phone) && !IsFilled(kept.phone) {
        kept := kept.(phone := removed.phone);
      }
      if IsFilled(removed.address) && !IsFilled(kept.address) {
        kept := kept.(address := removed.address);
      }
      if IsFilled(removed.preferredCurrency) && !IsFilled(kept.preferredCurrency) {
        kept := kept.(preferredCurrency := removed.preferredCurrency);
      }
      if removed.balance.Some? && removed.balance.value != 0.0 {
        kept := kept.(balance := Some(OrZero(kept.balance) + removed.balance.value));
      }
      if removed.paidAmount.Some? && removed.paidAmount.value != 0.0 {
        kept := kept.(paidAmount := Some(OrZero(kept.paidAmount) + removed.paidAmount.value));
      }
      session := session.(clients := session.clients[keep := kept]);
    }

    /** The loop over the clients to remove; `budget` is the number of removals that succeed. */
    method MergeRemoved(keep: int, removes: seq<int>, budget: nat) returns (removed: nat, ok: bool)
      requires session == committed && CanMerge(committed, keep, removes)
      modifies this`session
      ensures ok <==> budget >= |removes|
      ensures removed == if ok then |removes| else budget
      ensures ok ==> session == MergeAll(committed, keep, removes)
    {
      removed := 0;
      for r := 0 to |removes|
        invariant removed == r <= budget
        invariant session == MergeAll(committed, keep, removes[..r])
      {
        if r == budget {
          return removed, false;
        }
        assert removes[..r + 1][..r] == removes[..r];
        assert removes[r] in session.clients;
        RepointInvoices(removes[r], keep);
        MergeFields(keep, removes[r]);
        session := DeleteClient(session, removes[r]);
        removed := removed + 1;
      }
      assert removes[..|removes|] == removes;
      return removed, true;
    }

    /** One turn of the loop over the groups: query, merge, commit; an error drops the whole turn. */
    method CleanupGroup(key: Key, budget: nat) returns (removed: nat, ok: bool)
      requires session == committed
      modifies this
      ensures session == committed
      ensures ok <==> |Members(old(committed), key)| <= 1 || budget >= |Members(old(committed), key)|
      ensures committed == if ok then MergeGroup(old(committed), key) else old(committed)
      ensures ok && |Members(old(committed), key)| > 1 ==> removed == |Members(old(committed), key)| - 1
      ensures !ok ==> removed == budget < |Members(old(committed), key)|
    {
      hide CanMerge, MergeAll, Members, Ascending;
      var ids := OldestFirst(session, key);
      if |ids| <= 1 {
        return 0, true;
      }
      removed, ok := MergeRemoved(ids[0], ids[1..], budget);
      ok := ok && budget > removed;
      if ok {
        committed := session;
      } else {
        session := committed;
      }
    }

    /** A turn of the loop, in a run that began with the tables `before`. */
    method CleanupNextGroup(ghost before: Db, rows: seq<GroupRow>, g: nat, budget: nat) returns (removed: nat, ok: bool)
      requires Consistent(before) && AreDuplicateGroups(before, rows) && g < |rows|
      requires session == committed == MergeGroups(before, rows[..g])
      modifies this
      ensures ok <==> budget >= rows[g].count
      ensures ok ==> session == committed == MergeGroups(before, rows[..g + 1])
                     && Announced(rows[..g + 1]) == Announced(rows[..g]) + removed && budget >= removed + 1
                     && GroupsDone(rows[g..], budget) == 1 + GroupsDone(rows[g + 1..], budget - removed - 1)
      ensures !ok ==> session == committed == MergeGroups(before, rows[..g]) && removed == budget && GroupsDone(rows[g..], budget) == 0
    {
      hide MergeGroup, MergeGroups;
      TurnAhead(before, rows, g);
      OneMoreTurn(rows, g, budget);
      removed, ok := CleanupGroup(rows[g].key, budget);
    }

    /** The loop over the groups. */
    method CleanupGroups(rows: seq<GroupRow>, budget: nat) returns (removed: nat, ok: bool, done: nat)
      requires session == committed && Consistent(committed) && AreDuplicateGroups(committed, rows)
      modifies this
      ensures session == committed
      ensures done == GroupsDone(rows, budget) && committed == MergeGroups(old(committed), rows[..done])
      ensures (ok <==> done == |rows|) && removed == if ok then Announced(rows) else budget - done
    {
      hide *;
      NoTurnsYet(committed, rows);
      removed, ok, done := 0, true, 0;
      var left: nat := budget;
      ghost var before, total := committed, GroupsDone(rows, budget);
      while done < |rows|
        invariant done <= |rows|
        invariant session == committed == MergeGroups(before, rows[..done])
        invariant removed == Announced(rows[..done]) && left == budget - done - removed
        invariant total == done + GroupsDone(rows[done..], left)
      {
        var more, merged := CleanupNextGroup(before, rows, done, left);
        removed := removed + more;
        if !merged {
          return removed, false, done;
        }
        left := left - more - 1;
        done := done + 1;
      }
      NoTurnsLeft(rows, left);
    }

    /**
     * `cleanup_duplicate_clients` for one tenant. `budget` is the number of removals and commits that
     * succeed before the database raises an error; the error drops what is not committed yet.
     * `removed` is the script's own counter, `done` the number of groups committed.
     */
    method CleanupDuplicateClients(rows: seq<GroupRow>, budget: nat) returns (removed: nat, ok: bool, done: nat)
      requires session == committed && Consistent(committed) && IsGroupQuery(committed, rows)
      modifies this
      ensures session == committed
      ensures done <= |rows| && committed == MergeGroups(old(committed), rows[..done])
      ensures ok <==> budget >= Announced(rows) + |rows|
      ensures ok ==> done == |rows| && removed == |old(committed).clients| - |committed.clients|
      ensures !ok ==> done < |rows| && removed == budget - done
                      && 0 <= removed - (|old(committed).clients| - |committed.clients|) < rows[done].count
                      && (removed == |old(committed).clients| - |committed.clients| <==> budget == Announced(rows[..done]) + done)
      ensures budget >= 2 * |old(committed).clients| ==> ok
    {
      PrintedIsDeletedIff(committed, rows, budget);
      EnoughForAll(committed, rows);
      if GroupsDone(rows, budget) < |rows| {
        OvershootIsBounded(committed, rows, budget);
      }
      removed, ok, done := CleanupGroups(rows, budget);
    }

    /** `preview_duplicates` for one tenant. */
    method PreviewDuplicates(rows: seq<GroupRow>) returns (found: int)
      requires Consistent(committed) && IsGroupQuery(committed, rows)
      ensures found == |committed.clients| - |AllKeys(committed)|
    {
      found := 0;
      for g := 0 to |rows|
        invariant found == Announced(rows[..g])
      {
        assert rows[..g + 1][..g] == rows[..g];
        found := found + rows[g].count - 1;
      }
      assert rows[..|rows|] == rows;
      PreviewPredictsCleanup(committed, rows);
    }
  }
}
