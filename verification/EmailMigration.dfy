// api/scripts/make_client_email_unique.py: one transaction that fills missing client emails,
// renames duplicates by appending the client id, and adds the NOT NULL and UNIQUE constraints.

module EmailMigration {
  import opened Collections
  import opened Decimal

  /** The email column of `clients`, by client id; None is SQL NULL. */
  type Emails = map<int, Option<string>>

  /**
   * The email column: whether NULL is refused, whether some unique index is enforced, and whether there is
   * already a constraint of the name that the migration adds.
   */
  datatype Clients = Clients(emails: Emails, notNull: bool, unique: bool, named: bool)

  // ----- the SQL statements ----------------------------------------------------------------

  predicate IsMissing(email: Option<string>) {
    email.None? || email.value == ""
  }

  function DefaultEmail(id: int): string {
    "client_" + Print(id) + "@example.com"
  }

  /** UPDATE ... SET email = CONCAT(...) WHERE email IS NULL OR email = '' */
  function FillMissing(emails: Emails): Emails {
    map id | id in emails :: if IsMissing(emails[id]) then Some(DefaultEmail(id)) else emails[id]
  }

  /** ROW_NUMBER() OVER (PARTITION BY email ORDER BY id) */
  function RowNumber(emails: Emails, id: int): nat
    requires id in emails
  {
    |set other | other in emails && emails[other] == emails[id] && other <= id|
  }

  function WithId(email: string, id: int): string {
    email + "_" + Print(id)
  }

  /** UPDATE ... SET email = email || '_' || id WHERE rn > 1; NULL || text stays NULL. */
  function AppendIds(emails: Emails): Emails {
    map id | id in emails ::
      if RowNumber(emails, id) > 1 && emails[id].Some? then Some(WithId(emails[id].value, id))
      else emails[id]
  }

  predicate NoneMissingValue(emails: Emails) {
    forall id :: id in emails ==> emails[id].Some?
  }

  /** SQL uniqueness: NULLs never clash. */
  predicate AllDistinct(emails: Emails) {
    forall i, j :: i in emails && j in emails && i != j && emails[i].Some? ==> emails[i] != emails[j]
  }

  predicate Admits(notNull: bool, unique: bool, emails: Emails) {
    (notNull ==> NoneMissingValue(emails)) && (unique ==> AllDistinct(emails))
  }

  // ----- what the renaming does ------------------------------------------------------------

  /** No client with a smaller id has the same email. */
  predicate KeepsEmail(emails: Emails, id: int)
    requires id in emails
  {
    forall other :: other in emails && other < id ==> emails[other] != emails[id]
  }

  lemma RowNumberOne(emails: Emails, id: int)
    requires id in emails
    ensures RowNumber(emails, id) > 1 <==> !KeepsEmail(emails, id)
  {
    var rows := set other | other in emails && emails[other] == emails[id] && other <= id;
    assert id in rows;
    if KeepsEmail(emails, id) {
      assert rows == {id};
    } else {
      var other :| other in emails && other < id && emails[other] == emails[id];
      assert other in rows - {id};
      assert |rows - {id}| >= 1;
    }
  }

  /** Some generated address is already the address of a client that keeps its own. */
  predicate KeptEqualsGenerated(emails: Emails, kept: int, renamed: int)
    requires kept in emails && renamed in emails && NoneMissingValue(emails)
  {
    KeepsEmail(emails, kept) && !KeepsEmail(emails, renamed)
    && emails[kept].value == WithId(emails[renamed].value, renamed)
  }

  /** What has to be checked on the filled column before the renaming is attempted. */
  predicate NoGeneratedTaken(emails: Emails)
    requires NoneMissingValue(emails)
  {
    forall kept, renamed :: kept in emails && renamed in emails ==> !KeptEqualsGenerated(emails, kept, renamed)
  }

  /** Ids hold no underscore, so two different clients are never given the same address. */
  lemma GeneratedDistinct(email1: string, id1: int, email2: string, id2: int)
    requires WithId(email1, id1) == WithId(email2, id2)
    ensures id1 == id2 && email1 == email2
  {
    PrintHasNoUnderscore(id1);
    PrintHasNoUnderscore(id2);
    LastSeparatorSplitsUniquely(email1, Print(id1), email2, Print(id2), '_');
    PrintInjective(id1, id2);
  }

  /** Two clients that both keep their address have different ones. */
  lemma KeptDistinct(emails: Emails, i: int, j: int)
    requires i in emails && j in emails && i != j
    requires KeepsEmail(emails, i) && KeepsEmail(emails, j)
    ensures emails[i] != emails[j]
  {
    if i < j {
      assert emails[i] != emails[j];
    }
  }

  /** The renamed column, client by client. */
  lemma Renamed(emails: Emails, id: int)
    requires NoneMissingValue(emails) && id in emails
    ensures AppendIds(emails)[id]
         == Some(if KeepsEmail(emails, id) then emails[id].value else WithId(emails[id].value, id))
  {
    RowNumberOne(emails, id);
  }

  /** The renamed column is duplicate-free exactly when no generated address was already kept. */
  lemma RenamingSucceedsIff(emails: Emails)
    requires NoneMissingValue(emails)
    ensures AllDistinct(AppendIds(emails)) <==> NoGeneratedTaken(emails)
  {
    var after := AppendIds(emails);
    if NoGeneratedTaken(emails) {
      forall i, j | i in after && j in after && i != j ensures after[i] != after[j] {
        Renamed(emails, i);
        Renamed(emails, j);
        assert !KeptEqualsGenerated(emails, i, j) && !KeptEqualsGenerated(emails, j, i);
        if KeepsEmail(emails, i) && KeepsEmail(emails, j) {
          KeptDistinct(emails, i, j);
        } else if !KeepsEmail(emails, i) && !KeepsEmail(emails, j) && after[i] == after[j] {
          GeneratedDistinct(emails[i].value, i, emails[j].value, j);
        }
      }
    } else {
      var i, j :| i in emails && j in emails && KeptEqualsGenerated(emails, i, j);
      Renamed(emails, i);
      Renamed(emails, j);
      assert i != j && after[i] == after[j];
    }
  }

  /** No client has the address that another one without an address would be given. */
  predicate NoDefaultTaken(emails: Emails) {
    forall id, other :: id in emails && other in emails && IsMissing(emails[id]) ==> emails[other] != Some(DefaultEmail(id))
  }

  /** Where a unique index is enforced already, filling the gaps violates it exactly when a default address is taken. */
  lemma FillingSucceedsIff(emails: Emails)
    requires AllDistinct(emails)
    ensures AllDistinct(FillMissing(emails)) <==> NoDefaultTaken(emails)
  {
    var filled := FillMissing(emails);
    if NoDefaultTaken(emails) {
      forall i, j | i in filled && j in filled && i != j ensures filled[i] != filled[j] {
        if IsMissing(emails[i]) && IsMissing(emails[j]) && filled[i] == filled[j] {
          DefaultsDistinct(i, j);
        }
      }
    }
    if AllDistinct(filled) {
      forall id, other | id in emails && other in emails && IsMissing(emails[id])
        ensures emails[other] != Some(DefaultEmail(id))
      {
        DefaultIsFilled(id);
        assert filled[id] == Some(DefaultEmail(id)) && (!IsMissing(emails[other]) ==> filled[other] == emails[other]);
      }
    }
  }

  lemma DefaultIsFilled(id: int)
    ensures !IsMissing(Some(DefaultEmail(id)))
  {
    assert |DefaultEmail(id)| >= |"client_"|;
  }

  lemma FilledHasNoGaps(emails: Emails)
    ensures NoneMissingValue(FillMissing(emails))
    ensures forall id :: id in FillMissing(emails) ==> !IsMissing(FillMissing(emails)[id])
  {
  }

  /** Not every column can be renamed: three clients whose second one is given the third one's address. */
  lemma CollisionExample()
    ensures var emails := map[1 := Some("a"), 2 := Some("a"), 3 := Some("a_2")];
            NoneMissingValue(emails) && !NoGeneratedTaken(emails)
  {
    var emails := map[1 := Some("a"), 2 := Some("a"), 3 := Some("a_2")];
    assert Print(2) == "2";
    assert WithId("a", 2) == "a_2";
    assert emails[1] == emails[2] && 1 < 2;
    assert emails[1].value != emails[3].value && emails[2].value != emails[3].value by {
      assert |emails[3].value| == 3;
    }
    assert KeptEqualsGenerated(emails, 3, 2);
  }

  lemma DistinctIsStable(emails: Emails)
    requires NoneMissingValue(emails) && AllDistinct(emails)
    ensures AppendIds(emails) == emails && NoGeneratedTaken(emails)
  {
    forall id | id in emails ensures KeepsEmail(emails, id) && AppendIds(emails)[id] == emails[id] {
      assert KeepsEmail(emails, id);
      RowNumberOne(emails, id);
    }
  }

  // ----- the transaction -------------------------------------------------------------------

  /** Two updates, two constraints and the commit. */
  const STATEMENTS := 5

  /** All that can be said about one run, from the state before to the state after. */
  ghost predicate Migration(before: Clients, connects: bool, faultAt: nat, after: Clients, ok: bool) {
    && (ok <==> connects && faultAt >= STATEMENTS && !before.named && NoGeneratedTaken(FillMissing(before.emails))
                && (before.unique ==> NoDefaultTaken(before.emails)))
    && (!ok ==> after == before)
    && (ok ==> after == Clients(AppendIds(FillMissing(before.emails)), true, true, true))
  }

  class TenantDatabase {
    var emails: Emails
    var notNull: bool
    var unique: bool
    var named: bool

    ghost function State(): Clients
      reads this
    {
      Clients(emails, notNull, unique, named)
    }

    ghost predicate Valid()
      reads this
    {
      Admits(notNull, unique, emails) && (named ==> unique)
    }

    /** `faultAt` is the number of the statement (commit included) that meets an unrelated error. */
    method MigrateTenantDatabase(connects: bool, faultAt: nat) returns (ok: bool)
      requires Valid()
      modifies this
      ensures Valid()
      ensures Migration(old(State()), connects, faultAt, State(), ok)
    {
      FilledHasNoGaps(emails);
      RenamingSucceedsIff(FillMissing(emails));
      if unique {
        FillingSucceedsIff(emails);
      }
      if !connects {
        return false;
      }
      // the transaction works on its own copy, which is installed by the commit or dropped
      var working := FillMissing(emails);
      if faultAt == 0 || !Admits(notNull, unique, working) {
        return false;
      }
      if unique {
        DistinctIsStable(working);
      }
      working := AppendIds(working);
      if faultAt == 1 || !Admits(notNull, unique, working) {
        return false;
      }
      if faultAt == 2 || !NoneMissingValue(working) {
        return false;
      }
      if faultAt == 3 || named || !AllDistinct(working) {
        return false;
      }
      if faultAt == 4 {
        return false;
      }
      emails, notNull, unique, named := working, true, true, true;
      return true;
    }
  }

  /** After a successful run every email is non-empty and unique, and every client is still there. */
  lemma MigratedEmails(before: Clients, connects: bool, faultAt: nat, after: Clients)
    requires Migration(before, connects, faultAt, after, true)
    ensures after.emails.Keys == before.emails.Keys
    ensures forall id :: id in after.emails ==> after.emails[id] != None && after.emails[id] != Some("")
    ensures forall i, j :: i in after.emails && j in after.emails && i != j ==> after.emails[i] != after.emails[j]
  {
    var filled := FillMissing(before.emails);
    FilledHasNoGaps(before.emails);
    RenamingSucceedsIff(filled);
    forall id | id in after.emails ensures !IsMissing(after.emails[id]) {
      Renamed(filled, id);
    }
  }

  /** The address the script makes up for a client belongs to this client alone. */
  lemma DefaultsDistinct(id1: int, id2: int)
    requires DefaultEmail(id1) == DefaultEmail(id2)
    ensures id1 == id2
  {
    SameMiddle("client_", Print(id1), Print(id2), "@example.com");
    PrintInjective(id1, id2);
  }

  lemma SameMiddle(prefix: string, middle1: string, middle2: string, suffix: string)
    requires prefix + middle1 + suffix == prefix + middle2 + suffix
    ensures middle1 == middle2
  {
    var whole1, whole2, n := prefix + middle1 + suffix, prefix + middle2 + suffix, |prefix|;
    assert |whole1| == |whole2| && |middle1| == |middle2|;
    assert whole1[n..n + |middle1|] == middle1 && whole2[n..n + |middle2|] == middle2;
  }

  /** Somebody with a smaller id has `email` on record already. */
  predicate TakenEarlier(emails: Emails, id: int, email: string) {
    exists other :: other in emails && other < id && emails[other] == Some(email)
  }

  /** A client keeps, or without one is given, an address unless an older client has it on record. */
  lemma KeepsUnlessTaken(emails: Emails, id: int)
    requires id in emails
    ensures var filled := FillMissing(emails);
            && IsMissing(emails[id]) ==> (KeepsEmail(filled, id) <==> !TakenEarlier(emails, id, DefaultEmail(id)))
  {
    var filled := FillMissing(emails);
    if IsMissing(emails[id]) {
      forall other | other in emails && other < id
        ensures filled[other] == filled[id] <==> emails[other] == Some(DefaultEmail(id))
      {
        if IsMissing(emails[other]) && filled[other] == filled[id] {
          DefaultsDistinct(other, id);
        }
        assert DefaultEmail(id) != "" by {
          assert |DefaultEmail(id)| >= |"client_"|;
        }
      }
    }
  }

  /**
   * The email of each client after a successful run, told from the emails before it: a missing one becomes
   * the default address, an address an older client holds is extended by the id, every other one is kept.
   */
  lemma EachClientsEmail(before: Clients, connects: bool, faultAt: nat, after: Clients, id: int)
    requires Migration(before, connects, faultAt, after, true)
    requires id in before.emails
    ensures before.emails[id] == None || before.emails[id] == Some("") ==>
              after.emails[id] == Some(if TakenEarlier(before.emails, id, "client_" + Print(id) + "@example.com")
                                       then "client_" + Print(id) + "@example.com" + "_" + Print(id)
                                       else "client_" + Print(id) + "@example.com")
    ensures before.emails[id] != None && before.emails[id] != Some("") ==>
              (after.emails[id] == before.emails[id] <==> KeepsEmail(FillMissing(before.emails), id))
              && (after.emails[id] != before.emails[id] ==> after.emails[id] == Some(before.emails[id].value + "_" + Print(id)))
  {
    FilledHasNoGaps(before.emails);
    Renamed(FillMissing(before.emails), id);
    KeepsUnlessTaken(before.emails, id);
  }

  /** A column without gaps and duplicates is left exactly as it is. */
  lemma CleanColumnIsStable(emails: Emails)
    requires forall id :: id in emails ==> !IsMissing(emails[id])
    requires AllDistinct(emails)
    ensures FillMissing(emails) == emails && AppendIds(emails) == emails && NoGeneratedTaken(emails)
  {
    DistinctIsStable(emails);
  }

  /**
   * A second run finds nothing to rename, and still reports failure: the constraint it wants to add
   * is already there, so it rolls back.
   */
  lemma SecondRunRollsBack(before: Clients, connects: bool, faultAt: nat, middle: Clients,
                           connects2: bool, faultAt2: nat, after: Clients, ok: bool)
    requires Migration(before, connects, faultAt, middle, true)
    requires Migration(middle, connects2, faultAt2, after, ok)
    ensures FillMissing(middle.emails) == middle.emails && AppendIds(middle.emails) == middle.emails
    ensures !ok && after == middle
  {
    MigratedEmails(before, connects, faultAt, middle);
    CleanColumnIsStable(middle.emails);
  }

  // ----- the same, told from the addresses ---------------------------------------------------

  /** The address of each client once the gaps are filled, from the column before: its own, or one made up from its id. */
  ghost predicate AreAddresses(emails: Emails, addresses: map<int, string>) {
    && addresses.Keys == emails.Keys
    && forall id :: id in emails ==>
         addresses[id] == if emails[id] == None || emails[id] == Some("") then "client_" + Print(id) + "@example.com" else emails[id].value
  }

  /** An older client has the same address. */
  predicate HasOlder(addresses: map<int, string>, id: int)
    requires id in addresses
  {
    exists other :: other in addresses && other < id && addresses[other] == addresses[id]
  }

  /** The renaming would give `renamed` the address that `kept` keeps. */
  predicate GetsKept(addresses: map<int, string>, kept: int, renamed: int)
    requires kept in addresses && renamed in addresses
  {
    !HasOlder(addresses, kept) && HasOlder(addresses, renamed) && addresses[kept] == addresses[renamed] + "_" + Print(renamed)
  }

  /** `other` has the address that would be made up for `id`, which has none. */
  predicate MadeUpTaken(emails: Emails, id: int, other: int)
    requires id in emails && other in emails
  {
    (emails[id] == None || emails[id] == Some("")) && emails[other] == Some("client_" + Print(id) + "@example.com")
  }

  lemma FilledAddresses(emails: Emails, addresses: map<int, string>)
    requires AreAddresses(emails, addresses)
    ensures FillMissing(emails).Keys == addresses.Keys
    ensures forall id :: id in addresses ==> FillMissing(emails)[id] == Some(addresses[id])
    ensures forall id :: id in addresses ==> (KeepsEmail(FillMissing(emails), id) <==> !HasOlder(addresses, id))
  {
    var filled := FillMissing(emails);
    assert forall id :: id in addresses ==> filled[id] == Some(addresses[id]);
    forall id | id in addresses ensures KeepsEmail(filled, id) <==> !HasOlder(addresses, id) {
    }
  }

  /**
   * When the migration commits, told from the addresses: no renamed client would be given the address of one
   * that keeps its own, and, where a unique index is in force, no made-up address is somebody's already.
   */
  lemma CommitsIff(before: Clients, connects: bool, faultAt: nat, after: Clients, ok: bool, addresses: map<int, string>)
    requires Migration(before, connects, faultAt, after, ok) && AreAddresses(before.emails, addresses)
    ensures ok <==> connects && faultAt >= 5 && !before.named
                    && (forall kept, renamed :: kept in addresses && renamed in addresses ==> !GetsKept(addresses, kept, renamed))
                    && (before.unique ==>
                          forall id, other :: id in before.emails && other in before.emails ==> !MadeUpTaken(before.emails, id, other))
    ensures !ok ==> after == before
  {
    FilledHasNoGaps(before.emails);
    FilledAddresses(before.emails, addresses);
    GeneratedTakenIff(FillMissing(before.emails), addresses);
    DefaultTakenIff(before.emails);
  }

  lemma DefaultTakenIff(emails: Emails)
    ensures NoDefaultTaken(emails) <==> forall id, other :: id in emails && other in emails ==> !MadeUpTaken(emails, id, other)
  {
    forall id, other | id in emails && other in emails
      ensures MadeUpTaken(emails, id, other) <==> IsMissing(emails[id]) && emails[other] == Some(DefaultEmail(id))
    {
      assert DefaultEmail(id) == "client_" + Print(id) + "@example.com";
    }
  }

  /**
   * What a committed migration leaves: each client has its address, extended by its id exactly if an older
   * client has the same, and the column has all three constraints.
   */
  lemma CommittedAddresses(before: Clients, connects: bool, faultAt: nat, after: Clients, addresses: map<int, string>)
    requires Migration(before, connects, faultAt, after, true) && AreAddresses(before.emails, addresses)
    ensures after.notNull && after.unique && after.named && after.emails.Keys == addresses.Keys
    ensures forall id :: id in addresses ==>
              after.emails[id] == Some(if HasOlder(addresses, id) then addresses[id] + "_" + Print(id) else addresses[id])
  {
    FilledHasNoGaps(before.emails);
    FilledAddresses(before.emails, addresses);
    forall id | id in addresses
      ensures after.emails[id] == Some(if HasOlder(addresses, id) then addresses[id] + "_" + Print(id) else addresses[id])
    {
      Renamed(FillMissing(before.emails), id);
    }
  }

  lemma GeneratedTakenIff(filled: Emails, addresses: map<int, string>)
    requires filled.Keys == addresses.Keys && NoneMissingValue(filled)
    requires forall id :: id in addresses ==> filled[id] == Some(addresses[id])
    requires forall id :: id in addresses ==> (KeepsEmail(filled, id) <==> !HasOlder(addresses, id))
    ensures NoGeneratedTaken(filled)
       <==> forall kept, renamed :: kept in addresses && renamed in addresses ==> !GetsKept(addresses, kept, renamed)
  {
    forall kept, renamed | kept in addresses && renamed in addresses
      ensures KeptEqualsGenerated(filled, kept, renamed) <==> GetsKept(addresses, kept, renamed)
    {
      GetsKeptIff(filled, addresses, kept, renamed);
    }
  }

  lemma GetsKeptIff(filled: Emails, addresses: map<int, string>, kept: int, renamed: int)
    requires kept in filled && renamed in filled && kept in addresses && renamed in addresses && NoneMissingValue(filled)
    requires filled[kept] == Some(addresses[kept]) && filled[renamed] == Some(addresses[renamed])
    requires KeepsEmail(filled, kept) <==> !HasOlder(addresses, kept)
    requires KeepsEmail(filled, renamed) <==> !HasOlder(addresses, renamed)
    ensures KeptEqualsGenerated(filled, kept, renamed) <==> GetsKept(addresses, kept, renamed)
  {
  }
}
