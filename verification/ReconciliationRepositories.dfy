/** The repository that writes statement entries and their matches, proved to do what `Reconciliation.Next` says. */
module ReconciliationRepositories {
  import opened Common
  import opened Reconciliation
  import L = Ledger
  import LR = LedgerRepositories

  class BankReconciliationsRepository {
    const db: LR.Database
    var entries: seq<Entry>
    var matches: seq<Match>
    var activeBanks: set<nat>

    /** What every run keeps: the ledger's invariant, and a one-to-one matching of agreeing pairs. */
    ghost predicate Valid()
      reads this, db
    {
      db.Valid() && Inv(Tables())
    }

    constructor (db: LR.Database)
      requires db.Valid()
      ensures Valid() && this.db == db && entries == [] && matches == [] && activeBanks == {}
    {
      this.db, entries, matches, activeBanks := db, [], [], {};
    }

    function Tables(): World
      reads this, db
    {
      World(db.financings, entries, matches)
    }

    /** What the repositories of the ledger do to their tables leaves the matches valid. */
    twostate lemma LedgerMovesOn()
      requires old(Valid()) && unchanged(this)
      requires db.Valid() && L.AllKept(old(db.financings), db.financings)
      ensures Valid()
    {
      MatchesStay(old(Tables()), db.financings);
    }

    method CreateEntry(entry: Entry) returns (id: Option<nat>)
      requires Valid()
      modifies this`entries
      ensures Valid() && Tables() == Next(old(Tables()), EntryCreated(entry, entry.banque in activeBanks))
      ensures id.Some? <==>
              && entry.banque in activeBanks && entry.montant > 0
              && forall i :: 0 <= i < |old(entries)| && old(entries)[i].banque == entry.banque ==>
                   old(entries)[i].reference != entry.reference
      ensures id.Some? ==> id.value == |old(entries)| && entries == old(entries) + [entry]
      ensures id.None? ==> entries == old(entries)
    {
      StepInv(Tables(), EntryCreated(entry, entry.banque in activeBanks));
      if entry.banque !in activeBanks || !EntryAccepted(entries, entry) {
        return None;
      }
      id := Some(|entries|);
      entries := entries + [entry];
    }

    method MatchEntry(entry: nat, operation: Operation) returns (outcome: Outcome)
      requires Valid()
      modifies this`matches
      ensures Valid() && Tables() == Next(old(Tables()), EntryMatches(entry, operation))
      ensures outcome == MatchOutcome(old(Tables()), entry, operation)
      ensures outcome == Matched <==>
              && Agrees(db.financings, entries, Match(entry, operation))
              && !EntryMatched(old(matches), entry) && !OperationMatched(old(matches), operation)
    {
      StepInv(Tables(), EntryMatches(entry, operation));
      MatchedIff(Tables(), entry, operation);
      if entry >= |entries| {
        return EntryNotFound;
      }
      if EntryMatched(matches, entry) {
        return EntryAlreadyMatched;
      }
      var row := FindOperation(db.financings, operation);
      if row.None? {
        return OperationNotFound;
      }
      if operation.Decaissement? && !row.value.executed {
        return OperationNotExecuted;
      }
      if OperationMatched(matches, operation) {
        return OperationAlreadyMatched;
      }
      var statement := entries[entry];
      if row.value.banque.None? || row.value.banque.value != statement.banque {
        return BankMismatch;
      }
      var expectedDirection := if operation.Decaissement? then Debit else Credit;
      if statement.sens != expectedDirection {
        return DirectionMismatch;
      }
      if statement.montant != row.value.montant {
        return AmountMismatch;
      }
      matches := matches + [Match(entry, operation)];
      return Matched;
    }
  }
}
