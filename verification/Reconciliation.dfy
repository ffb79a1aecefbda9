/**
 Bank statement entries matched one by one to disbursements and repayments of the ledger, and the totals
 that hold per bank because the matching is a partial bijection.
 */
module Reconciliation {
  import opened Common
  import L = Ledger

  datatype Sens = Debit | Credit

  datatype Entry = Entry(banque: nat, reference: string, sens: Sens, montant: int)

  /** Disbursement `d` of financing `f`, or payment `r` on its instalment `e`. */
  datatype Operation = Decaissement(f: nat, d: nat) | Remboursement(f: nat, e: nat, r: nat)

  datatype Match = Match(entry: nat, operation: Operation)

  datatype World = World(ledger: L.Table, entries: seq<Entry>, matches: seq<Match>)

  datatype OperationRow = OperationRow(banque: Option<nat>, montant: int, executed: bool)

  datatype Outcome =
    | Matched | EntryNotFound | EntryAlreadyMatched | OperationNotFound | OperationAlreadyMatched
    | OperationNotExecuted | BankMismatch | DirectionMismatch | AmountMismatch

  function FindOperation(t: L.Table, op: Operation): Option<OperationRow> {
    if op.f >= |t| then None
    else
      var f := t[op.f];
      match op
      case Decaissement(_, d) =>
        if d >= |f.disbursements| then None
        else Some(OperationRow(f.banque, f.disbursements[d].montant, f.disbursements[d].statut == L.Effectue))
      case Remboursement(_, e, r) =>
        if e >= |f.echeances| || r >= |f.echeances[e].repayments| then None
        else Some(OperationRow(f.banque, f.echeances[e].repayments[r], true))
  }

  function Direction(op: Operation): Sens {
    if op.Decaissement? then Debit else Credit
  }

  predicate EntryMatched(matches: seq<Match>, entry: nat) {
    exists i :: 0 <= i < |matches| && matches[i].entry == entry
  }

  predicate OperationMatched(matches: seq<Match>, op: Operation) {
    exists i :: 0 <= i < |matches| && matches[i].operation == op
  }

  function MatchOutcome(w: World, entry: nat, op: Operation): Outcome {
    if entry >= |w.entries| then EntryNotFound
    else if EntryMatched(w.matches, entry) then EntryAlreadyMatched
    else
      var row := FindOperation(w.ledger, op);
      if row.None? then OperationNotFound
      else if op.Decaissement? && !row.value.executed then OperationNotExecuted
      else if OperationMatched(w.matches, op) then OperationAlreadyMatched
      else if row.value.banque != Some(w.entries[entry].banque) then BankMismatch
      else if w.entries[entry].sens != Direction(op) then DirectionMismatch
      else if w.entries[entry].montant != row.value.montant then AmountMismatch
      else Matched
  }

  /** The table's checks: a positive amount, and a reference used once per bank. */
  predicate EntryAccepted(entries: seq<Entry>, e: Entry) {
    && e.montant > 0
    && forall i :: 0 <= i < |entries| ==> !(entries[i].banque == e.banque && entries[i].reference == e.reference)
  }

  datatype Event =
    | LedgerWritten(event: L.Event)
    | EntryCreated(created: Entry, bankActive: bool)
    | EntryMatches(entry: nat, operation: Operation)

  function Next(w: World, e: Event): World {
    match e
    case LedgerWritten(event) => w.(ledger := L.Next(w.ledger, event))
    case EntryCreated(entry, active) =>
      if active && EntryAccepted(w.entries, entry) then w.(entries := w.entries + [entry]) else w
    case EntryMatches(entry, op) =>
      if MatchOutcome(w, entry, op) == Matched then w.(matches := w.matches + [Match(entry, op)]) else w
  }

  const EMPTY := World([], [], [])

  function Replay(events: seq<Event>): World {
    if events == [] then EMPTY else Next(Replay(events[..|events| - 1]), events[|events| - 1])
  }

  // ---- What every run keeps ---------------------------------------------------------------------

  /** The pair agrees in bank, direction and amount, and a matched disbursement is executed. */
  predicate Agrees(t: L.Table, entries: seq<Entry>, m: Match) {
    && m.entry < |entries|
    && var row := FindOperation(t, m.operation);
       && row.Some?
       && row.value == OperationRow(Some(entries[m.entry].banque), entries[m.entry].montant, true)
       && entries[m.entry].sens == Direction(m.operation)
  }

  predicate OneToOne(matches: seq<Match>) {
    forall i, j :: 0 <= i < j < |matches| ==>
      matches[i].entry != matches[j].entry && matches[i].operation != matches[j].operation
  }

  /** Positive amounts, and each reference once per bank. */
  predicate EntriesSound(entries: seq<Entry>) {
    && (forall i :: 0 <= i < |entries| ==> entries[i].montant > 0)
    && (forall i, j :: 0 <= i < j < |entries| && entries[i].banque == entries[j].banque ==>
          entries[i].reference != entries[j].reference)
  }

  predicate Inv(w: World) {
    && L.Inv(w.ledger)
    && EntriesSound(w.entries)
    && OneToOne(w.matches)
    && forall i :: 0 <= i < |w.matches| ==> Agrees(w.ledger, w.entries, w.matches[i])
  }

  /** A match is made if and only if both sides are free and agree. */
  lemma MatchedIff(w: World, entry: nat, op: Operation)
    ensures MatchOutcome(w, entry, op) == Matched <==>
            && Agrees(w.ledger, w.entries, Match(entry, op))
            && !EntryMatched(w.matches, entry) && !OperationMatched(w.matches, op)
  {
  }

  /** What the operation is, where it is found: its bank, its amount, and whether money moved. */
  lemma OperationMeans(t: L.Table, op: Operation)
    ensures var row := FindOperation(t, op);
            match op
            case Decaissement(f, d) =>
              && (row.Some? <==> f < |t| && d < |t[f].disbursements|)
              && (row.Some? ==> row.value.banque == t[f].banque && row.value.montant == t[f].disbursements[d].montant
                                && (row.value.executed <==> t[f].disbursements[d].statut == L.Effectue))
            case Remboursement(f, e, r) =>
              && (row.Some? <==> f < |t| && e < |t[f].echeances| && r < |t[f].echeances[e].repayments|)
              && (row.Some? ==> row.value.banque == t[f].banque && row.value.executed
                                && row.value.montant == t[f].echeances[e].repayments[r])
  {
  }

  /** Every outcome but MATCHED names something that really stands against the match. */
  lemma OutcomeTells(w: World, entry: nat, op: Operation)
    ensures var row := FindOperation(w.ledger, op);
            match MatchOutcome(w, entry, op)
            case Matched => true
            case EntryNotFound => entry >= |w.entries|
            case EntryAlreadyMatched => exists i :: 0 <= i < |w.matches| && w.matches[i].entry == entry
            case OperationNotFound => row.None?
            case OperationNotExecuted => op.Decaissement? && row.Some? && !row.value.executed
            case OperationAlreadyMatched => exists i :: 0 <= i < |w.matches| && w.matches[i].operation == op
            case BankMismatch => entry < |w.entries| && row.Some? && row.value.banque != Some(w.entries[entry].banque)
            case DirectionMismatch =>
              entry < |w.entries| && w.entries[entry].sens == if op.Decaissement? then Credit else Debit
            case AmountMismatch => entry < |w.entries| && row.Some? && row.value.montant != w.entries[entry].montant
  {
  }

  /** Ledger steps leave a matched operation's row as it was. */
  lemma AgreementStays(before: L.Table, after: L.Table, entries: seq<Entry>, m: Match)
    requires Agrees(before, entries, m) && L.AllKept(before, after)
    ensures Agrees(after, entries, m)
  {
    var op := m.operation;
    assert L.Kept(before[op.f], after[op.f]);
    match op
    case Decaissement(f, d) => assert L.SameDisbursement(before[f].disbursements[d], after[f].disbursements[d]);
    case Remboursement(f, e, r) => assert L.SameEcheance(before[f].echeances[e], after[f].echeances[e]);
  }

  lemma MatchesStay(w: World, ledger: L.Table)
    requires Inv(w) && L.Inv(ledger) && L.AllKept(w.ledger, ledger)
    ensures Inv(w.(ledger := ledger))
  {
    forall i | 0 <= i < |w.matches| ensures Agrees(ledger, w.entries, w.matches[i]) {
      AgreementStays(w.ledger, ledger, w.entries, w.matches[i]);
    }
  }

  /** An entry of an active bank is accepted exactly with a positive amount and a reference new to that bank. */
  lemma EntryAcceptedIff(w: World, e: Entry, active: bool)
    ensures Next(w, EntryCreated(e, active)) ==
            if active && e.montant > 0
               && forall i :: 0 <= i < |w.entries| && w.entries[i].banque == e.banque ==>
                    w.entries[i].reference != e.reference
            then w.(entries := w.entries + [e]) else w
  {
  }

  lemma EntryInv(w: World, entry: Entry)
    requires Inv(w) && EntryAccepted(w.entries, entry)
    ensures Inv(w.(entries := w.entries + [entry]))
  {
    forall i | 0 <= i < |w.matches| ensures Agrees(w.ledger, w.entries + [entry], w.matches[i]) {
      assert Agrees(w.ledger, w.entries, w.matches[i]);
    }
  }

  lemma MatchInv(w: World, entry: nat, op: Operation)
    requires Inv(w) && MatchOutcome(w, entry, op) == Matched
    ensures Inv(w.(matches := w.matches + [Match(entry, op)]))
  {
    MatchedIff(w, entry, op);
  }

  lemma StepInv(w: World, e: Event)
    requires Inv(w)
    ensures Inv(Next(w, e))
  {
    match e
    case LedgerWritten(event) =>
      L.StepInv(w.ledger, event);
      L.StepKept(w.ledger, event);
      MatchesStay(w, L.Next(w.ledger, event));
    case EntryCreated(entry, _) => if EntryAccepted(w.entries, entry) { EntryInv(w, entry); }
    case EntryMatches(entry, op) => if MatchOutcome(w, entry, op) == Matched { MatchInv(w, entry, op); }
  }

  /** References are unique per bank, nothing is ever matched twice, and the two sides of a match agree for good. */
  lemma {:induction false} RunInv(events: seq<Event>)
    ensures Inv(Replay(events))
  {
    if events != [] {
      RunInv(events[..|events| - 1]);
      StepInv(Replay(events[..|events| - 1]), events[|events| - 1]);
    }
  }

  // ---- Matched entries against operations, per bank and direction --------------------------------

  function Operations(matches: seq<Match>): set<Operation> {
    if matches == [] then {} else Operations(matches[..|matches| - 1]) + {matches[|matches| - 1].operation}
  }

  predicate KnownEntries(entries: seq<Entry>, matches: seq<Match>) {
    forall i :: 0 <= i < |matches| ==> matches[i].entry < |entries|
  }

  /** The matched entries of a bank in one direction. */
  function MatchedEntries(entries: seq<Entry>, matches: seq<Match>, banque: nat, sens: Sens): int
    requires KnownEntries(entries, matches)
  {
    if matches == [] then 0
    else
      var e := entries[matches[|matches| - 1].entry];
      MatchedEntries(entries, matches[..|matches| - 1], banque, sens)
      + if e.banque == banque && e.sens == sens then e.montant else 0
  }

  /** The amounts of those disbursements of financing `f` that are in `ops`. */
  function DisbursementsIn(f: nat, rows: seq<L.Disbursement>, ops: set<Operation>): int {
    if rows == [] then 0
    else
      var d := |rows| - 1;
      DisbursementsIn(f, rows[..d], ops) + if Decaissement(f, d) in ops then rows[d].montant else 0
  }

  /** The payments on instalment `e` of financing `f` that are in `ops`. */
  function PaymentsIn(f: nat, e: nat, payments: seq<int>, ops: set<Operation>): int {
    if payments == [] then 0
    else
      var r := |payments| - 1;
      PaymentsIn(f, e, payments[..r], ops) + if Remboursement(f, e, r) in ops then payments[r] else 0
  }

  function RepaymentsIn(f: nat, rows: seq<L.Echeance>, ops: set<Operation>): int {
    if rows == [] then 0
    else
      var e := |rows| - 1;
      RepaymentsIn(f, rows[..e], ops) + PaymentsIn(f, e, rows[e].repayments, ops)
  }

  function OperationsIn(f: nat, row: L.Financing, sens: Sens, ops: set<Operation>): int {
    if sens == Debit then DisbursementsIn(f, row.disbursements, ops) else RepaymentsIn(f, row.echeances, ops)
  }

  /** The amounts of the operations in `ops` on financings of a bank, in one direction. */
  function TableIn(t: L.Table, banque: nat, sens: Sens, ops: set<Operation>): int {
    if t == [] then 0
    else
      var f := |t| - 1;
      TableIn(t[..f], banque, sens, ops) + if t[f].banque == Some(banque) then OperationsIn(f, t[f], sens, ops) else 0
  }

  function Executed(rows: seq<L.Disbursement>): int {
    if rows == [] then 0
    else
      var d := |rows| - 1;
      Executed(rows[..d]) + if rows[d].statut == L.Effectue then rows[d].montant else 0
  }

  function Paid(rows: seq<L.Echeance>): int {
    if rows == [] then 0 else Paid(rows[..|rows| - 1]) + L.Sum(rows[|rows| - 1].repayments)
  }

  /** All executed disbursements, or all repayments, of the financings of a bank. */
  function Total(t: L.Table, banque: nat, sens: Sens): int {
    if t == [] then 0
    else
      var f := |t| - 1;
      Total(t[..f], banque, sens)
      + if t[f].banque != Some(banque) then 0
        else if sens == Debit then Executed(t[f].disbursements) else Paid(t[f].echeances)
  }

  /** What one operation contributes to financing `f` in one direction. */
  function Contribution(f: nat, row: L.Financing, sens: Sens, op: Operation): int {
    if op.f != f || Direction(op) != sens then 0
    else match op
      case Decaissement(_, d) => if d < |row.disbursements| then row.disbursements[d].montant else 0
      case Remboursement(_, e, r) =>
        if e < |row.echeances| && r < |row.echeances[e].repayments| then row.echeances[e].repayments[r] else 0
  }

  lemma {:induction false} DisbursementsAdd(f: nat, rows: seq<L.Disbursement>, ops: set<Operation>, op: Operation)
    requires op !in ops
    ensures DisbursementsIn(f, rows, ops + {op})
            == DisbursementsIn(f, rows, ops)
               + if op.Decaissement? && op.f == f && op.d < |rows| then rows[op.d].montant else 0
  {
    if rows != [] {
      DisbursementsAdd(f, rows[..|rows| - 1], ops, op);
    }
  }

  lemma {:induction false} PaymentsAdd(f: nat, e: nat, payments: seq<int>, ops: set<Operation>, op: Operation)
    requires op !in ops
    ensures PaymentsIn(f, e, payments, ops + {op})
            == PaymentsIn(f, e, payments, ops)
               + if op.Remboursement? && op.f == f && op.e == e && op.r < |payments| then payments[op.r] else 0
  {
    if payments != [] {
      PaymentsAdd(f, e, payments[..|payments| - 1], ops, op);
    }
  }

  lemma {:induction false} RepaymentsAdd(f: nat, rows: seq<L.Echeance>, ops: set<Operation>, op: Operation)
    requires op !in ops
    ensures RepaymentsIn(f, rows, ops + {op})
            == RepaymentsIn(f, rows, ops)
               + if op.Remboursement? && op.f == f && op.e < |rows| && op.r < |rows[op.e].repayments|
                 then rows[op.e].repayments[op.r] else 0
  {
    if rows != [] {
      var e := |rows| - 1;
      RepaymentsAdd(f, rows[..e], ops, op);
      PaymentsAdd(f, e, rows[e].repayments, ops, op);
    }
  }

  lemma OperationsAdd(f: nat, row: L.Financing, sens: Sens, ops: set<Operation>, op: Operation)
    requires op !in ops
    ensures OperationsIn(f, row, sens, ops + {op}) == OperationsIn(f, row, sens, ops) + Contribution(f, row, sens, op)
  {
    DisbursementsAdd(f, row.disbursements, ops, op);
    RepaymentsAdd(f, row.echeances, ops, op);
  }

  lemma {:induction false} TableAdds(t: L.Table, banque: nat, sens: Sens, ops: set<Operation>, op: Operation)
    requires op !in ops
    ensures TableIn(t, banque, sens, ops + {op})
            == TableIn(t, banque, sens, ops)
               + if op.f < |t| && t[op.f].banque == Some(banque) then Contribution(op.f, t[op.f], sens, op) else 0
  {
    if t != [] {
      TableAdds(t[..|t| - 1], banque, sens, ops, op);
      OperationsAdd(|t| - 1, t[|t| - 1], sens, ops, op);
    }
  }

  lemma {:induction false} DisbursementsOfNone(f: nat, rows: seq<L.Disbursement>)
    ensures DisbursementsIn(f, rows, {}) == 0
  {
    if rows != [] {
      DisbursementsOfNone(f, rows[..|rows| - 1]);
    }
  }

  lemma {:induction false} PaymentsOfNone(f: nat, e: nat, payments: seq<int>)
    ensures PaymentsIn(f, e, payments, {}) == 0
  {
    if payments != [] {
      PaymentsOfNone(f, e, payments[..|payments| - 1]);
    }
  }

  lemma {:induction false} RepaymentsOfNone(f: nat, rows: seq<L.Echeance>)
    ensures RepaymentsIn(f, rows, {}) == 0
  {
    if rows != [] {
      RepaymentsOfNone(f, rows[..|rows| - 1]);
      PaymentsOfNone(f, |rows| - 1, rows[|rows| - 1].repayments);
    }
  }

  lemma {:induction false} TableOfNone(t: L.Table, banque: nat, sens: Sens)
    ensures TableIn(t, banque, sens, {}) == 0
  {
    if t != [] {
      TableOfNone(t[..|t| - 1], banque, sens);
      DisbursementsOfNone(|t| - 1, t[|t| - 1].disbursements);
      RepaymentsOfNone(|t| - 1, t[|t| - 1].echeances);
    }
  }

  lemma {:induction false} InOperations(matches: seq<Match>, op: Operation)
    ensures op in Operations(matches) <==> OperationMatched(matches, op)
  {
    if matches != [] {
      var front := matches[..|matches| - 1];
      InOperations(front, op);
      if OperationMatched(front, op) {
        var i :| 0 <= i < |front| && front[i].operation == op;
        assert matches[i].operation == op;
      }
    }
  }

  /** A match contributes its entry's amount to its own bank and direction, and nothing elsewhere. */
  lemma MatchContributes(t: L.Table, entries: seq<Entry>, m: Match, banque: nat, sens: Sens)
    requires m.entry < |entries| && Agrees(t, entries, m)
    ensures var op, e := m.operation, entries[m.entry];
            && op.f < |t|
            && (if t[op.f].banque == Some(banque) then Contribution(op.f, t[op.f], sens, op) else 0)
               == if e.banque == banque && e.sens == sens then e.montant else 0
  {
  }

  lemma {:induction false} MatchedEntriesAreOperations(
    t: L.Table, entries: seq<Entry>, matches: seq<Match>, banque: nat, sens: Sens)
    requires OneToOne(matches) && KnownEntries(entries, matches)
    requires forall i :: 0 <= i < |matches| ==> Agrees(t, entries, matches[i])
    ensures MatchedEntries(entries, matches, banque, sens) == TableIn(t, banque, sens, Operations(matches))
  {
    if matches == [] {
      TableOfNone(t, banque, sens);
    } else {
      var front, last := matches[..|matches| - 1], matches[|matches| - 1];
      MatchedEntriesAreOperations(t, entries, front, banque, sens);
      InOperations(front, last.operation);
      TableAdds(t, banque, sens, Operations(front), last.operation);
      MatchContributes(t, entries, last, banque, sens);
    }
  }

  lemma {:induction false} WithinExecuted(f: nat, rows: seq<L.Disbursement>, ops: set<Operation>)
    requires forall d :: 0 <= d < |rows| && Decaissement(f, d) in ops ==> rows[d].statut == L.Effectue
    requires forall d :: 0 <= d < |rows| ==> rows[d].montant > 0
    ensures DisbursementsIn(f, rows, ops) <= Executed(rows)
  {
    if rows != [] {
      WithinExecuted(f, rows[..|rows| - 1], ops);
    }
  }

  lemma {:induction false} WithinPayments(f: nat, e: nat, payments: seq<int>, ops: set<Operation>)
    requires forall r :: 0 <= r < |payments| ==> payments[r] > 0
    ensures PaymentsIn(f, e, payments, ops) <= L.Sum(payments)
  {
    if payments != [] {
      WithinPayments(f, e, payments[..|payments| - 1], ops);
    }
  }

  lemma {:induction false} WithinPaid(f: nat, rows: seq<L.Echeance>, ops: set<Operation>)
    requires forall e :: 0 <= e < |rows| ==> L.StatusAgrees(rows[e])
    ensures RepaymentsIn(f, rows, ops) <= Paid(rows)
  {
    if rows != [] {
      var e := |rows| - 1;
      WithinPaid(f, rows[..e], ops);
      assert L.StatusAgrees(rows[e]);
      WithinPayments(f, e, rows[e].repayments, ops);
    }
  }

  /** Every disbursement in `ops` is executed. */
  predicate OnlyExecuted(t: L.Table, ops: set<Operation>) {
    forall f, d :: 0 <= f < |t| && 0 <= d < |t[f].disbursements| && Decaissement(f, d) in ops ==>
      t[f].disbursements[d].statut == L.Effectue
  }

  lemma {:induction false} WithinTotal(t: L.Table, banque: nat, sens: Sens, ops: set<Operation>)
    requires forall f :: 0 <= f < |t| ==> L.FinancingInv(t[f])
    requires OnlyExecuted(t, ops)
    ensures TableIn(t, banque, sens, ops) <= Total(t, banque, sens)
  {
    if t != [] {
      var f := |t| - 1;
      assert L.FinancingInv(t[f]) && L.WithinGrant(t[f]);
      WithinTotal(t[..f], banque, sens, ops);
      WithinExecuted(f, t[f].disbursements, ops);
      WithinPaid(f, t[f].echeances, ops);
    }
  }

  lemma MatchedIsExecuted(w: World, f: nat, d: nat)
    requires Inv(w) && f < |w.ledger| && d < |w.ledger[f].disbursements|
    requires Decaissement(f, d) in Operations(w.matches)
    ensures w.ledger[f].disbursements[d].statut == L.Effectue
  {
    InOperations(w.matches, Decaissement(f, d));
    var i :| 0 <= i < |w.matches| && w.matches[i].operation == Decaissement(f, d);
    assert Agrees(w.ledger, w.entries, w.matches[i]);
  }

  lemma MatchedAreExecuted(w: World)
    requires Inv(w)
    ensures OnlyExecuted(w.ledger, Operations(w.matches))
  {
    forall f, d |
      0 <= f < |w.ledger| && 0 <= d < |w.ledger[f].disbursements| && Decaissement(f, d) in Operations(w.matches)
      ensures w.ledger[f].disbursements[d].statut == L.Effectue
    {
      MatchedIsExecuted(w, f, d);
    }
  }

  lemma InvKnowsEntries(w: World)
    requires Inv(w)
    ensures KnownEntries(w.entries, w.matches)
  {
    assert forall i :: 0 <= i < |w.matches| ==> Agrees(w.ledger, w.entries, w.matches[i]);
  }

  /**
   Per bank, matched debits are exactly the amounts of the matched disbursements, and matched credits those of the
   matched repayments; neither is ever more than all the disbursements executed, or all the repayments received.
   */
  lemma MatchedWithinOperations(events: seq<Event>, banque: nat, sens: Sens)
    ensures var w := Replay(events);
            && KnownEntries(w.entries, w.matches)
            && MatchedEntries(w.entries, w.matches, banque, sens)
               == TableIn(w.ledger, banque, sens, Operations(w.matches))
               <= Total(w.ledger, banque, sens)
  {
    RunInv(events);
    var w := Replay(events);
    InvKnowsEntries(w);
    MatchedEntriesAreOperations(w.ledger, w.entries, w.matches, banque, sens);
    MatchedAreExecuted(w);
    WithinTotal(w.ledger, banque, sens, Operations(w.matches));
  }

  // ---- The summary: matched and unmatched make up all entries ------------------------------------

  datatype Summary = Summary(total: nat, rapproches: nat, aRapprocher: nat, montantARapprocher: int)

  predicate OfBank(e: Entry, banque: Option<nat>) {
    banque.None? || e.banque == banque.value
  }

  /** The entries joined with their matches, one row per entry since no entry has two. */
  function SummaryOf(entries: seq<Entry>, matches: seq<Match>, banque: Option<nat>): Summary {
    if entries == [] then Summary(0, 0, 0, 0)
    else
      var n := |entries| - 1;
      var s := SummaryOf(entries[..n], matches, banque);
      if !OfBank(entries[n], banque) then s
      else if EntryMatched(matches, n) then s.(total := s.total + 1, rapproches := s.rapproches + 1)
      else s.(total := s.total + 1, aRapprocher := s.aRapprocher + 1,
              montantARapprocher := s.montantARapprocher + entries[n].montant)
  }

  function AllEntries(entries: seq<Entry>, banque: Option<nat>): int {
    if entries == [] then 0
    else
      var n := |entries| - 1;
      AllEntries(entries[..n], banque) + if OfBank(entries[n], banque) then entries[n].montant else 0
  }

  /** How many matches, and of what amount, are on entries of the bank. */
  function MatchCount(entries: seq<Entry>, matches: seq<Match>, banque: Option<nat>): nat
    requires KnownEntries(entries, matches)
  {
    if matches == [] then 0
    else
      MatchCount(entries, matches[..|matches| - 1], banque)
      + if OfBank(entries[matches[|matches| - 1].entry], banque) then 1 else 0
  }

  function MatchAmount(entries: seq<Entry>, matches: seq<Match>, banque: Option<nat>): int
    requires KnownEntries(entries, matches)
  {
    if matches == [] then 0
    else
      var e := entries[matches[|matches| - 1].entry];
      MatchAmount(entries, matches[..|matches| - 1], banque) + if OfBank(e, banque) then e.montant else 0
  }

  lemma {:induction false} SummaryOfNone(entries: seq<Entry>, banque: Option<nat>)
    ensures var s := SummaryOf(entries, [], banque);
            s.rapproches == 0 && s.aRapprocher == s.total && s.montantARapprocher == AllEntries(entries, banque)
  {
    if entries != [] {
      SummaryOfNone(entries[..|entries| - 1], banque);
    }
  }

  lemma OneMoreMatch(front: seq<Match>, m: Match, entry: nat)
    ensures EntryMatched(front + [m], entry) <==> EntryMatched(front, entry) || m.entry == entry
  {
    var matches := front + [m];
    if EntryMatched(front, entry) {
      var i :| 0 <= i < |front| && front[i].entry == entry;
      assert matches[i].entry == entry;
    }
    assert matches[|front|] == m;
  }

  /** A match on a free entry moves that entry, and only it, to the other side. */
  lemma {:induction false} SummaryAfterMatch(entries: seq<Entry>, front: seq<Match>, m: Match, banque: Option<nat>)
    requires !EntryMatched(front, m.entry)
    ensures var before, after := SummaryOf(entries, front, banque), SummaryOf(entries, front + [m], banque);
            var moved := if m.entry < |entries| && OfBank(entries[m.entry], banque) then 1 else 0;
            && after.total == before.total
            && after.rapproches == before.rapproches + moved
            && after.aRapprocher == before.aRapprocher - moved
            && after.montantARapprocher
               == before.montantARapprocher - if moved == 1 then entries[m.entry].montant else 0
  {
    if entries != [] {
      SummaryAfterMatch(entries[..|entries| - 1], front, m, banque);
      OneMoreMatch(front, m, |entries| - 1);
    }
  }

  lemma {:induction false} SummaryAddsUp(entries: seq<Entry>, matches: seq<Match>, banque: Option<nat>)
    requires OneToOne(matches) && KnownEntries(entries, matches)
    ensures var s := SummaryOf(entries, matches, banque);
            && s.total == s.rapproches + s.aRapprocher
            && s.rapproches == MatchCount(entries, matches, banque)
            && MatchAmount(entries, matches, banque) + s.montantARapprocher == AllEntries(entries, banque)
  {
    if matches == [] {
      SummaryOfNone(entries, banque);
    } else {
      var front, last := matches[..|matches| - 1], matches[|matches| - 1];
      SummaryAddsUp(entries, front, banque);
      assert matches == front + [last];
      assert !EntryMatched(front, last.entry);
      SummaryAfterMatch(entries, front, last, banque);
    }
  }

  /** In every run, for one bank or all, matched and unmatched amounts make up all entries. */
  lemma NothingLost(events: seq<Event>, banque: Option<nat>)
    ensures var w := Replay(events);
            && KnownEntries(w.entries, w.matches)
            && var s := SummaryOf(w.entries, w.matches, banque);
               && s.total == s.rapproches + s.aRapprocher
               && s.rapproches == MatchCount(w.entries, w.matches, banque)
               && MatchAmount(w.entries, w.matches, banque) + s.montantARapprocher == AllEntries(w.entries, banque)
  {
    RunInv(events);
    var w := Replay(events);
    InvKnowsEntries(w);
    SummaryAddsUp(w.entries, w.matches, banque);
  }
}
