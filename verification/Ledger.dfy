/**
 The money ledger: financings with their schedule, disbursements and repayments, written by Direction's and
 the partner banks' repositories. Amounts are cents; a row's children are kept in their parent, in insertion
 order, and named by their position.
 */
module Ledger {
  import opened Common
  import A = Amortization
  import C = Calendar

  type UserId = nat

  datatype DisbursementStatut = Prevu | Effectue | Annule

  /** `executions` lists the users of the audit rows written when it is executed. */
  datatype Disbursement = Disbursement(
    numero: nat, montant: int, statut: DisbursementStatut, createdBy: Option<UserId>, executedBy: Option<UserId>,
    executions: seq<UserId>)

  datatype EcheanceStatut = AVenir | PartiellementPayee | Payee

  datatype Echeance = Echeance(line: A.Installment, statut: EcheanceStatut, repayments: seq<int>)

  datatype Financing = Financing(
    dossier: nat, entreprise: nat, montantAccorde: int, tauxInteret: nat, dateDebut: string, actif: bool,
    banque: Option<nat>, echeances: seq<Echeance>, disbursements: seq<Disbursement>)

  type Table = seq<Financing>

  /** What the eligibility query returns for an approved dossier. */
  datatype Application = Application(
    dossier: nat, entreprise: nat, montantApprouve: int, tauxInteret: Option<nat>, dureeMois: nat)

  // ---------------------------------------------------------------------------------------------
  // Aggregates of the statements
  // ---------------------------------------------------------------------------------------------

  /** `SUM(montant) FILTER (WHERE statut <> 'ANNULE')`. */
  function Committed(rows: seq<Disbursement>): int {
    if rows == [] then 0
    else Committed(rows[..|rows| - 1]) + if rows[|rows| - 1].statut == Annule then 0 else rows[|rows| - 1].montant
  }

  /** `COALESCE(MAX(numero_decaissement), 0)`. */
  function MaxNumero(rows: seq<Disbursement>): nat {
    if rows == [] then 0
    else
      var before := MaxNumero(rows[..|rows| - 1]);
      if rows[|rows| - 1].numero > before then rows[|rows| - 1].numero else before
  }

  function Sum(amounts: seq<int>): int {
    if amounts == [] then 0 else Sum(amounts[..|amounts| - 1]) + amounts[|amounts| - 1]
  }

  /** `used + amount > ceiling + 0.001`, in tenths of a cent. */
  predicate Exceeds(used: int, amount: int, ceiling: int) {
    10 * (used + amount) > 10 * ceiling + 1
  }

  /** The check the services make on what they read. */
  predicate AvailableAmount(amount: int, committed: int, ceiling: int) {
    amount > 0 && !Exceeds(committed, amount, ceiling)
  }

  // ---------------------------------------------------------------------------------------------
  // Operations: None when nothing is written. The tables demand positive amounts.
  // ---------------------------------------------------------------------------------------------

  function NewEcheances(rows: seq<A.Installment>): seq<Echeance> {
    seq(|rows|, k requires 0 <= k < |rows| => Echeance(rows[k], AVenir, []))
  }

  predicate HasFinancing(t: Table, dossier: nat) {
    exists i :: 0 <= i < |t| && t[i].dossier == dossier
  }

  /** The row of a new financing, with the terms it was approved on. */
  function NewFinancing(app: Application, startDate: string, rows: seq<A.Installment>): Financing {
    Financing(app.dossier, app.entreprise, app.montantApprouve, app.tauxInteret.GetOr(0), startDate, true, None,
              NewEcheances(rows), [])
  }

  /** The due dates are cast to dates; a dossier has one financing. */
  function Create(t: Table, app: Application, startDate: string, rows: seq<A.Installment>): Option<Table> {
    if !A.Dated(rows) || HasFinancing(t, app.dossier) || app.montantApprouve <= 0 then None
    else Some(t + [NewFinancing(app, startDate, rows)])
  }

  /** A disbursement row with the next number, when the ceiling leaves room for it. */
  function Append(f: Financing, montant: int, statut: DisbursementStatut, user: UserId): Option<Financing> {
    if !f.actif || Exceeds(Committed(f.disbursements), montant, f.montantAccorde) || montant <= 0 then None
    else
      var row := Disbursement(MaxNumero(f.disbursements) + 1, montant, statut, Some(user), None, []);
      Some(f.(disbursements := f.disbursements + [row]))
  }

  predicate InScope(f: Financing, partner: nat, clients: set<nat>) {
    f.banque == Some(partner) || f.entreprise in clients
  }

  datatype ExecuteOutcome = Done | NotFound | InvalidState | SelfApproval

  function ExecuteOutcomeOf(f: Financing, d: nat, user: UserId): ExecuteOutcome {
    if d >= |f.disbursements| then NotFound
    else if f.disbursements[d].statut != Prevu then InvalidState
    else if f.disbursements[d].createdBy == Some(user) then SelfApproval
    else Done
  }

  function Execute(f: Financing, d: nat, user: UserId): Option<Financing> {
    if ExecuteOutcomeOf(f, d, user) != Done then None
    else
      var row := f.disbursements[d];
      var executed := row.(statut := Effectue, executedBy := Some(user), executions := row.executions + [user]);
      Some(f.(disbursements := f.disbursements[d := executed]))
  }

  function Repay(f: Financing, e: nat, montant: int): Option<Financing> {
    if e >= |f.echeances| then None
    else
      var row := f.echeances[e];
      var paid := Sum(row.repayments);
      if Exceeds(paid, montant, row.line.totalDue) || montant <= 0 then None
      else
        var statut := if paid + montant >= row.line.totalDue then Payee else PartiellementPayee;
        Some(f.(echeances := f.echeances[e := row.(statut := statut, repayments := row.repayments + [montant])]))
  }

  // ---------------------------------------------------------------------------------------------
  // Runs of the two repositories
  // ---------------------------------------------------------------------------------------------

  /** `clients` is the partner's client portfolio when the transaction runs; banks are assigned elsewhere, once. */
  datatype Event =
    | Creates(app: Application, startDate: string)
    | Plans(f: nat, user: UserId, montant: int)
    | Executes(f: nat, d: nat, user: UserId)
    | Repays(f: nat, e: nat, montant: int)
    | PartnerDisburses(partner: nat, clients: set<nat>, f: nat, user: UserId, montant: int)
    | PartnerRepays(partner: nat, clients: set<nat>, f: nat, e: nat, montant: int)
    | BankAssigned(f: nat, banque: nat)

  /** What an event does to the one financing it names. */
  function Change(f: Financing, e: Event): Option<Financing> {
    match e
    case Creates(_, _) => None
    case Plans(_, user, montant) => Append(f, montant, Prevu, user)
    case Executes(_, d, user) => Execute(f, d, user)
    case Repays(_, echeance, montant) => Repay(f, echeance, montant)
    case PartnerDisburses(partner, clients, _, user, montant) =>
      if InScope(f, partner, clients) then Append(f, montant, Effectue, user) else None
    case PartnerRepays(partner, clients, _, echeance, montant) =>
      if InScope(f, partner, clients) then Repay(f, echeance, montant) else None
    case BankAssigned(_, banque) => if f.banque.None? then Some(f.(banque := Some(banque))) else None
  }

  function ScheduleOf(app: Application, startDate: string): Result<seq<A.Installment>, A.Refusal> {
    A.Schedule(app.montantApprouve, app.tauxInteret.GetOr(0), app.dureeMois, startDate)
  }

  function Step(t: Table, e: Event): Option<Table> {
    if e.Creates? then
      match ScheduleOf(e.app, e.startDate)
      case Ok(rows) => Create(t, e.app, e.startDate, rows)
      case Err(_) => None
    else if e.f >= |t| then None
    else match Change(t[e.f], e)
      case Some(f) => Some(t[e.f := f])
      case None => None
  }

  function Next(t: Table, e: Event): Table {
    Step(t, e).GetOr(t)
  }

  function Replay(t: Table, events: seq<Event>): Table {
    if events == [] then t else Next(Replay(t, events[..|events| - 1]), events[|events| - 1])
  }

  // ---------------------------------------------------------------------------------------------
  // What every run keeps
  // ---------------------------------------------------------------------------------------------

  function Lines(rows: seq<Echeance>): seq<A.Installment> {
    seq(|rows|, k requires 0 <= k < |rows| => rows[k].line)
  }

  /** Nobody executed it, or one user did, once, and not the one who planned it. */
  predicate MakerChecker(d: Disbursement) {
    match d.executedBy
    case None => d.executions == []
    case Some(user) => d.executions == [user] && d.statut == Effectue && d.createdBy != Some(user)
  }

  predicate WithinGrant(f: Financing) {
    && Committed(f.disbursements) <= f.montantAccorde
    && forall i :: 0 <= i < |f.disbursements| ==> f.disbursements[i].montant > 0
  }

  predicate Numbered(rows: seq<Disbursement>) {
    forall i :: 0 <= i < |rows| ==> rows[i].numero == i + 1
  }

  /** The status column says what the payments add up to. */
  predicate StatusAgrees(row: Echeance) {
    && (forall i :: 0 <= i < |row.repayments| ==> row.repayments[i] > 0)
    && Sum(row.repayments) <= row.line.totalDue
    && row.statut == (if row.repayments == [] then AVenir
                      else if Sum(row.repayments) == row.line.totalDue then Payee else PartiellementPayee)
  }

  /** Numbered lines whose capital adds up to the amount granted, and whose totals are capital and interest. */
  predicate PaysBack(lines: seq<A.Installment>, granted: int) {
    && A.TotalCapital(lines) == granted
    && forall k :: 0 <= k < |lines| ==>
         && lines[k].number == k + 1
         && lines[k].capitalDue >= 0 && lines[k].interestDue >= 0
         && lines[k].totalDue == lines[k].capitalDue + lines[k].interestDue
  }

  predicate ScheduleAgrees(f: Financing) {
    f.montantAccorde > 0 && PaysBack(Lines(f.echeances), f.montantAccorde)
  }

  predicate FinancingInv(f: Financing) {
    && ScheduleAgrees(f)
    && WithinGrant(f)
    && Numbered(f.disbursements)
    && (forall i :: 0 <= i < |f.disbursements| ==> MakerChecker(f.disbursements[i]))
    && (forall i :: 0 <= i < |f.echeances| ==> StatusAgrees(f.echeances[i]))
  }

  predicate Inv(t: Table) {
    && (forall i :: 0 <= i < |t| ==> FinancingInv(t[i]))
    && (forall i, j :: 0 <= i < j < |t| ==> t[i].dossier != t[j].dossier)
  }

  lemma {:induction false} MaxNumeroIsLength(rows: seq<Disbursement>)
    requires Numbered(rows)
    ensures MaxNumero(rows) == |rows|
  {
    if rows != [] {
      MaxNumeroIsLength(rows[..|rows| - 1]);
    }
  }

  lemma {:induction false} CommittedUnchanged(rows: seq<Disbursement>, i: nat, row: Disbursement)
    requires i < |rows| && row.montant == rows[i].montant && (row.statut == Annule <==> rows[i].statut == Annule)
    ensures Committed(rows[i := row]) == Committed(rows)
  {
    var n := |rows| - 1;
    if i < n {
      CommittedUnchanged(rows[..n], i, row);
      assert rows[i := row][..n] == rows[..n][i := row];
    } else {
      assert rows[i := row][..n] == rows[..n];
    }
  }

  /** On cents the tolerance is harmless: what is accepted is exactly what the ceiling leaves, to the last cent. */
  lemma AcceptedWithinBalance(f: Financing, montant: int, statut: DisbursementStatut, user: UserId, e: nat)
    ensures Append(f, montant, statut, user).Some? <==>
            f.actif && 0 < montant <= f.montantAccorde - Committed(f.disbursements)
    ensures Repay(f, e, montant).Some? <==>
            e < |f.echeances| && 0 < montant <= f.echeances[e].line.totalDue - Sum(f.echeances[e].repayments)
  {
  }

  lemma AppendInv(f: Financing, montant: int, statut: DisbursementStatut, user: UserId)
    requires FinancingInv(f) && Append(f, montant, statut, user).Some? && statut != Annule
    ensures FinancingInv(Append(f, montant, statut, user).value)
  {
    MaxNumeroIsLength(f.disbursements);
    var rows := Append(f, montant, statut, user).value.disbursements;
    assert rows[..|rows| - 1] == f.disbursements;
  }

  lemma ExecuteInv(f: Financing, d: nat, user: UserId)
    requires FinancingInv(f) && Execute(f, d, user).Some?
    ensures FinancingInv(Execute(f, d, user).value)
  {
    CommittedUnchanged(f.disbursements, d, Execute(f, d, user).value.disbursements[d]);
  }

  lemma {:induction false} SumPositive(amounts: seq<int>)
    requires forall i :: 0 <= i < |amounts| ==> amounts[i] > 0
    ensures Sum(amounts) >= 0 && (amounts != [] ==> Sum(amounts) > 0)
  {
    if amounts != [] {
      SumPositive(amounts[..|amounts| - 1]);
    }
  }

  lemma PaymentAgrees(row: Echeance, montant: int, statut: EcheanceStatut)
    requires StatusAgrees(row) && montant > 0 && !Exceeds(Sum(row.repayments), montant, row.line.totalDue)
    requires statut == if Sum(row.repayments) + montant >= row.line.totalDue then Payee else PartiellementPayee
    ensures StatusAgrees(row.(statut := statut, repayments := row.repayments + [montant]))
  {
    var repayments := row.repayments + [montant];
    assert repayments[..|repayments| - 1] == row.repayments;
  }

  lemma RepayInv(f: Financing, e: nat, montant: int)
    requires FinancingInv(f) && Repay(f, e, montant).Some?
    ensures FinancingInv(Repay(f, e, montant).value)
  {
    var after := Repay(f, e, montant).value;
    PaymentAgrees(f.echeances[e], montant, after.echeances[e].statut);
    assert Lines(after.echeances) == Lines(f.echeances);
  }

  lemma ChangeInv(f: Financing, e: Event)
    requires FinancingInv(f) && Change(f, e).Some?
    ensures FinancingInv(Change(f, e).value) && Change(f, e).value.dossier == f.dossier
  {
    match e
    case Creates(_, _) =>
    case Plans(_, user, montant) => AppendInv(f, montant, Prevu, user);
    case Executes(_, d, user) => ExecuteInv(f, d, user);
    case Repays(_, echeance, montant) => RepayInv(f, echeance, montant);
    case PartnerDisburses(_, _, _, user, montant) => AppendInv(f, montant, Effectue, user);
    case PartnerRepays(_, _, _, echeance, montant) => RepayInv(f, echeance, montant);
    case BankAssigned(_, _) =>
  }

  lemma ScheduleOfPaysBack(app: Application, startDate: string)
    ensures var schedule := ScheduleOf(app, startDate);
            schedule.Ok? ==> |schedule.value| == app.dureeMois && PaysBack(schedule.value, app.montantApprouve)
  {
    A.ScheduleAddsUp(app.montantApprouve, app.tauxInteret.GetOr(0), app.dureeMois, startDate);
  }

  /** An application is financed exactly when its schedule exists and ends by the year 9999, and its dossier is free. */
  lemma CreatesIff(t: Table, app: Application, startDate: string)
    ensures var schedule := ScheduleOf(app, startDate);
            Step(t, Creates(app, startDate)).Some? <==>
            && schedule.Ok? && (forall i :: 0 <= i < |t| ==> t[i].dossier != app.dossier)
            && A.Due(C.ParseIsoDate(startDate).value, app.dureeMois - 1).year <= 9999
  {
    if ScheduleOf(app, startDate).Ok? {
      A.DatedIff(app.montantApprouve, app.tauxInteret.GetOr(0), app.dureeMois, startDate);
    }
  }

  lemma NewFinancingInv(app: Application, startDate: string, rows: seq<A.Installment>)
    requires PaysBack(rows, app.montantApprouve) && app.montantApprouve > 0
    ensures FinancingInv(NewFinancing(app, startDate, rows))
  {
    assert Lines(NewEcheances(rows)) == rows;
  }

  lemma AddedInv(t: Table, f: Financing)
    requires Inv(t) && FinancingInv(f) && !HasFinancing(t, f.dossier)
    ensures Inv(t + [f])
  {
  }

  lemma CreateInv(t: Table, app: Application, startDate: string, rows: seq<A.Installment>)
    requires Inv(t) && PaysBack(rows, app.montantApprouve) && Create(t, app, startDate, rows).Some?
    ensures Inv(Create(t, app, startDate, rows).value)
  {
    NewFinancingInv(app, startDate, rows);
    AddedInv(t, NewFinancing(app, startDate, rows));
  }

  lemma ReplacedInv(t: Table, i: nat, f: Financing)
    requires Inv(t) && i < |t| && FinancingInv(f) && f.dossier == t[i].dossier
    ensures Inv(t[i := f])
  {
  }

  lemma CreatesInv(t: Table, app: Application, startDate: string)
    requires Inv(t) && ScheduleOf(app, startDate).Ok?
    ensures Inv(Create(t, app, startDate, ScheduleOf(app, startDate).value).GetOr(t))
  {
    var rows := ScheduleOf(app, startDate).value;
    if Create(t, app, startDate, rows).Some? {
      ScheduleOfPaysBack(app, startDate);
      CreateInv(t, app, startDate, rows);
    }
  }

  lemma StepInv(t: Table, e: Event)
    requires Inv(t)
    ensures Inv(Next(t, e))
  {
    if Step(t, e).Some? {
      if e.Creates? {
        CreatesInv(t, e.app, e.startDate);
      } else {
        ChangeInv(t[e.f], e);
        ReplacedInv(t, e.f, Change(t[e.f], e).value);
      }
    }
  }

  lemma {:induction false} RunInv(t: Table, events: seq<Event>)
    requires Inv(t)
    ensures Inv(Replay(t, events))
  {
    if events != [] {
      RunInv(t, events[..|events| - 1]);
      StepInv(Replay(t, events[..|events| - 1]), events[|events| - 1]);
    }
  }

  // ---- What no later step undoes ----------------------------------------------------------------

  predicate SameDisbursement(before: Disbursement, after: Disbursement) {
    && after.numero == before.numero && after.montant == before.montant && after.createdBy == before.createdBy
    && (before.statut == Effectue ==> after == before)
  }

  predicate SameEcheance(before: Echeance, after: Echeance) {
    before.line == after.line && before.repayments <= after.repayments && (before.statut == Payee ==> after == before)
  }

  /** Rows are only added; an executed disbursement and a paid instalment never change again. */
  predicate Kept(before: Financing, after: Financing) {
    && after.dossier == before.dossier && after.montantAccorde == before.montantAccorde
    && after.tauxInteret == before.tauxInteret && after.dateDebut == before.dateDebut
    && after.entreprise == before.entreprise && after.actif == before.actif
    && (before.banque.Some? ==> after.banque == before.banque)
    && |before.disbursements| <= |after.disbursements|
    && (forall i :: 0 <= i < |before.disbursements| ==>
          SameDisbursement(before.disbursements[i], after.disbursements[i]))
    && |before.echeances| == |after.echeances|
    && (forall i :: 0 <= i < |before.echeances| ==> SameEcheance(before.echeances[i], after.echeances[i]))
  }

  predicate AllKept(before: Table, after: Table) {
    |before| <= |after| && forall i :: 0 <= i < |before| ==> Kept(before[i], after[i])
  }

  lemma KeptItself(f: Financing)
    ensures Kept(f, f)
  {
  }

  lemma AllKeptItself(t: Table)
    ensures AllKept(t, t)
  {
  }

  lemma AppendKept(f: Financing, montant: int, statut: DisbursementStatut, user: UserId)
    requires Append(f, montant, statut, user).Some?
    ensures Kept(f, Append(f, montant, statut, user).value)
  {
  }

  lemma ExecuteKept(f: Financing, d: nat, user: UserId)
    requires Execute(f, d, user).Some?
    ensures Kept(f, Execute(f, d, user).value)
  {
  }

  /** A paid instalment takes no further payment. */
  lemma RepayKept(f: Financing, e: nat, montant: int)
    requires FinancingInv(f) && Repay(f, e, montant).Some?
    ensures Kept(f, Repay(f, e, montant).value)
  {
    assert StatusAgrees(f.echeances[e]);
  }

  lemma ChangeKept(f: Financing, e: Event)
    requires FinancingInv(f) && Change(f, e).Some?
    ensures Kept(f, Change(f, e).value)
  {
    match e
    case Creates(_, _) =>
    case Plans(_, user, montant) => AppendKept(f, montant, Prevu, user);
    case Executes(_, d, user) => ExecuteKept(f, d, user);
    case Repays(_, echeance, montant) => RepayKept(f, echeance, montant);
    case PartnerDisburses(_, _, _, user, montant) => AppendKept(f, montant, Effectue, user);
    case PartnerRepays(_, _, _, echeance, montant) => RepayKept(f, echeance, montant);
    case BankAssigned(_, _) =>
  }

  lemma StepKept(t: Table, e: Event)
    requires Inv(t)
    ensures AllKept(t, Next(t, e))
  {
    var after := Next(t, e);
    forall i | 0 <= i < |t| ensures Kept(t[i], after[i]) {
      if Step(t, e).Some? && !e.Creates? && i == e.f {
        ChangeKept(t[i], e);
      } else {
        KeptItself(t[i]);
      }
    }
  }

  /** A step writes at most the financing it names, and a partner bank's only in its scope. */
  lemma StepTouches(t: Table, e: Event, i: nat)
    requires i < |t| <= |Next(t, e)| && Next(t, e)[i] != t[i]
    ensures !e.Creates? && e.f == i
    ensures e.PartnerDisburses? || e.PartnerRepays? ==> t[i].banque == Some(e.partner) || t[i].entreprise in e.clients
  {
  }

  lemma KeptTransitive(a: Financing, b: Financing, c: Financing)
    requires Kept(a, b) && Kept(b, c)
    ensures Kept(a, c)
  {
    forall i | 0 <= i < |a.disbursements| ensures SameDisbursement(a.disbursements[i], c.disbursements[i]) {
      assert SameDisbursement(a.disbursements[i], b.disbursements[i]);
    }
    forall i | 0 <= i < |a.echeances| ensures SameEcheance(a.echeances[i], c.echeances[i]) {
      assert SameEcheance(a.echeances[i], b.echeances[i]);
    }
  }

  lemma {:induction false} RunKept(t: Table, events: seq<Event>, i: nat)
    requires Inv(t) && i <= |events|
    ensures AllKept(Replay(t, events[..i]), Replay(t, events))
  {
    if i == |events| {
      assert events[..i] == events;
    } else {
      var front := events[..|events| - 1];
      assert front[..i] == events[..i];
      RunKept(t, front, i);
      RunInv(t, front);
      var a, b, c := Replay(t, events[..i]), Replay(t, front), Replay(t, events);
      StepKept(b, events[|events| - 1]);
      forall k | 0 <= k < |a| ensures Kept(a[k], c[k]) {
        KeptTransitive(a[k], b[k], c[k]);
      }
    }
  }

  // ---- The lines are the schedule of the terms ----------------------------------------------------

  /** The schedule of the financing's own columns. */
  function TermsSchedule(f: Financing): Result<seq<A.Installment>, A.Refusal> {
    A.Schedule(f.montantAccorde, f.tauxInteret, |f.echeances|, f.dateDebut)
  }

  predicate OnSchedule(f: Financing) {
    TermsSchedule(f) == Ok(Lines(f.echeances))
  }

  lemma KeptLines(before: Financing, after: Financing)
    requires Kept(before, after)
    ensures |after.echeances| == |before.echeances| && Lines(after.echeances) == Lines(before.echeances)
  {
    forall i | 0 <= i < |before.echeances| ensures before.echeances[i].line == after.echeances[i].line {
      assert SameEcheance(before.echeances[i], after.echeances[i]);
    }
  }

  lemma KeptOnSchedule(before: Financing, after: Financing)
    requires Kept(before, after) && OnSchedule(before)
    ensures OnSchedule(after)
  {
    KeptLines(before, after);
  }

  lemma NewOnSchedule(app: Application, startDate: string, rows: seq<A.Installment>)
    requires ScheduleOf(app, startDate) == Ok(rows)
    ensures OnSchedule(NewFinancing(app, startDate, rows))
  {
    ScheduleOfPaysBack(app, startDate);
    assert Lines(NewEcheances(rows)) == rows;
  }

  predicate AllOnSchedule(t: Table) {
    forall i :: 0 <= i < |t| ==> OnSchedule(t[i])
  }

  lemma StepOnSchedule(t: Table, e: Event)
    requires Inv(t) && AllOnSchedule(t)
    ensures AllOnSchedule(Next(t, e))
  {
    StepKept(t, e);
    var after := Next(t, e);
    forall i | 0 <= i < |after| ensures OnSchedule(after[i]) {
      if i < |t| {
        KeptOnSchedule(t[i], after[i]);
      } else {
        NewOnSchedule(e.app, e.startDate, ScheduleOf(e.app, e.startDate).value);
      }
    }
  }

  // ---- What an accepted request writes --------------------------------------------------------------

  /** One row is added: of this amount, created by this user, in this state, executed by nobody. */
  predicate DisbursementAdded(
    before: Financing, after: Financing, montant: int, statut: DisbursementStatut, user: UserId)
  {
    var n := |before.disbursements|;
    && after.(disbursements := before.disbursements) == before
    && |after.disbursements| == n + 1 && after.disbursements[..n] == before.disbursements
    && var row := after.disbursements[n];
       && row.montant == montant && row.statut == statut && row.createdBy == Some(user)
       && row.executedBy.None? && row.executions == []
  }

  /** The payment is recorded on its instalment, which is PAYEE exactly when it is now paid in full. */
  predicate PaymentAdded(before: Financing, after: Financing, e: nat, montant: int) {
    && after.(echeances := before.echeances) == before
    && e < |before.echeances| == |after.echeances|
    && (forall i :: 0 <= i < |before.echeances| && i != e ==> after.echeances[i] == before.echeances[i])
    && var (row, row') := (before.echeances[e], after.echeances[e]);
       && row'.line == row.line && row'.repayments == row.repayments + [montant]
       && row'.statut == if Sum(row.repayments) + montant == row.line.totalDue then Payee else PartiellementPayee
  }

  /** The planned row is executed by `user`, and nothing else changes. */
  predicate ExecutionAdded(before: Financing, after: Financing, d: nat, user: UserId) {
    && after.(disbursements := before.disbursements) == before
    && d < |before.disbursements| == |after.disbursements|
    && (forall i :: 0 <= i < |before.disbursements| && i != d ==> after.disbursements[i] == before.disbursements[i])
    && var (row, row') := (before.disbursements[d], after.disbursements[d]);
       && row.statut == Prevu && row.createdBy != Some(user)
       && row'.statut == Effectue && row'.executedBy == Some(user) && row'.executions == row.executions + [user]
       && row'.numero == row.numero && row'.montant == row.montant && row'.createdBy == row.createdBy
  }

  /** The other financings are as they were. */
  predicate OnlyTouches(before: Table, after: Table, f: nat) {
    f < |before| == |after| && forall i :: 0 <= i < |before| && i != f ==> after[i] == before[i]
  }

  predicate Disbursed(before: Table, after: Table, f: nat, montant: int, statut: DisbursementStatut, user: UserId) {
    OnlyTouches(before, after, f) && DisbursementAdded(before[f], after[f], montant, statut, user)
  }

  predicate Paid(before: Table, after: Table, f: nat, e: nat, montant: int) {
    OnlyTouches(before, after, f) && PaymentAdded(before[f], after[f], e, montant)
  }

  predicate ExecutedIn(before: Table, after: Table, f: nat, d: nat, user: UserId) {
    OnlyTouches(before, after, f) && ExecutionAdded(before[f], after[f], d, user)
  }

  lemma PutTouches(t: Table, f: nat, row: Financing)
    requires f < |t|
    ensures OnlyTouches(t, t[f := row], f)
  {
  }

  lemma AppendAdds(f: Financing, montant: int, statut: DisbursementStatut, user: UserId)
    requires Append(f, montant, statut, user).Some?
    ensures DisbursementAdded(f, Append(f, montant, statut, user).value, montant, statut, user)
  {
  }

  lemma ExecuteAdds(f: Financing, d: nat, user: UserId)
    requires Execute(f, d, user).Some?
    ensures ExecutionAdded(f, Execute(f, d, user).value, d, user)
  {
  }

  lemma RepayAdds(f: Financing, e: nat, montant: int)
    requires Repay(f, e, montant).Some?
    ensures PaymentAdded(f, Repay(f, e, montant).value, e, montant)
  {
  }

  // ---- What the requests of a run recorded -----------------------------------------------------------------

  /** A disbursement as it was asked for: how much, by whom, and whether it is declared as paid already. */
  datatype Asked = Asked(montant: int, user: UserId, declared: bool)

  /** The amount and the author of a request to add a disbursement to financing `f`. */
  function Disburses(e: Event, f: nat): Option<Asked> {
    match e
    case Plans(g, user, montant) => if g == f then Some(Asked(montant, user, false)) else None
    case PartnerDisburses(_, _, g, user, montant) => if g == f then Some(Asked(montant, user, true)) else None
    case _ => None
  }

  /** The amount of a request to pay instalment `i` of financing `f`. */
  function Pays(e: Event, f: nat, i: nat): Option<int> {
    match e
    case Repays(g, j, montant) => if g == f && j == i then Some(montant) else None
    case PartnerRepays(_, _, g, j, montant) => if g == f && j == i then Some(montant) else None
    case _ => None
  }

  /** The accepted requests of a run to add a disbursement to financing `f`, in order. */
  function AcceptedDisbursements(t: Table, events: seq<Event>, f: nat): seq<Asked> {
    if events == [] then []
    else
      var front, last := events[..|events| - 1], events[|events| - 1];
      AcceptedDisbursements(t, front, f)
      + if Step(Replay(t, front), last).Some? && Disburses(last, f).Some? then [Disburses(last, f).value] else []
  }

  /** The accepted payments of a run on instalment `i` of financing `f`, in order. */
  function AcceptedPayments(t: Table, events: seq<Event>, f: nat, i: nat): seq<int> {
    if events == [] then []
    else
      var front, last := events[..|events| - 1], events[|events| - 1];
      AcceptedPayments(t, front, f, i)
      + if Step(Replay(t, front), last).Some? && Pays(last, f, i).Some? then [Pays(last, f, i).value] else []
  }

  /** The row says what was asked for by whom; it is paid if it was declared so, or was executed since. */
  predicate Says(d: Disbursement, asked: Asked) {
    && d.montant == asked.montant && d.createdBy == Some(asked.user)
    && d.statut == (if asked.declared || d.executedBy.Some? then Effectue else Prevu)
    && (asked.declared ==> d.executedBy.None?)
  }

  predicate Records(rows: seq<Disbursement>, asked: seq<Asked>) {
    |rows| == |asked| && forall k :: 0 <= k < |rows| ==> Says(rows[k], asked[k])
  }

  function PaymentsOf(f: Financing, i: nat): seq<int> {
    if i < |f.echeances| then f.echeances[i].repayments else []
  }

  function PaymentsOn(t: Table, f: nat, i: nat): seq<int> {
    if f < |t| then PaymentsOf(t[f], i) else []
  }

  function RowsOf(t: Table, f: nat): seq<Disbursement> {
    if f < |t| then t[f].disbursements else []
  }

  lemma StepRecords(t: Table, e: Event, f: nat, asked: seq<Asked>)
    requires Records(RowsOf(t, f), asked)
    ensures Records(RowsOf(Next(t, e), f),
                    asked + if Step(t, e).Some? && Disburses(e, f).Some? then [Disburses(e, f).value] else [])
  {
  }

  lemma ChangePays(financing: Financing, e: Event, f: nat, i: nat)
    requires !e.Creates? && e.f == f && Change(financing, e).Some?
    ensures PaymentsOf(Change(financing, e).value, i) ==
            PaymentsOf(financing, i) + if Pays(e, f, i).Some? then [Pays(e, f, i).value] else []
  {
  }

  lemma CreationPaysNothing(t: Table, e: Event, f: nat, i: nat)
    requires e.Creates?
    ensures PaymentsOn(Next(t, e), f, i) == PaymentsOn(t, f, i) && Pays(e, f, i).None?
  {
  }

  lemma StepPays(t: Table, e: Event, f: nat, i: nat)
    ensures PaymentsOn(Next(t, e), f, i) ==
            PaymentsOn(t, f, i) + if Step(t, e).Some? && Pays(e, f, i).Some? then [Pays(e, f, i).value] else []
  {
    if Step(t, e).Some? {
      if e.Creates? {
        CreationPaysNothing(t, e, f, i);
      } else if e.f == f {
        ChangePays(t[f], e, f, i);
      } else {
        assert f < |t| ==> Next(t, e)[f] == t[f];
      }
    }
  }

  /**
   The disbursements of a financing are exactly the accepted requests: as many, in their order, each of the amount
   asked for, created by the user who asked, and paid when a partner declared it or another user executed it.
   */
  lemma {:induction false} DisbursementsAreTheRequests(events: seq<Event>, f: nat)
    ensures Records(RowsOf(Replay([], events), f), AcceptedDisbursements([], events, f))
  {
    if events != [] {
      var front := events[..|events| - 1];
      DisbursementsAreTheRequests(front, f);
      StepRecords(Replay([], front), events[|events| - 1], f, AcceptedDisbursements([], front, f));
    }
  }

  /** The payments on an instalment are those there were and exactly the accepted requests, in their order. */
  lemma {:induction false} PaymentsAreTheRequests(t: Table, events: seq<Event>, f: nat, i: nat)
    ensures PaymentsOn(Replay(t, events), f, i) == PaymentsOn(t, f, i) + AcceptedPayments(t, events, f, i)
  {
    if events != [] {
      var front := events[..|events| - 1];
      PaymentsAreTheRequests(t, front, f, i);
      StepPays(Replay(t, front), events[|events| - 1], f, i);
    }
  }

  lemma {:induction false} SumConcat(a: seq<int>, b: seq<int>)
    ensures Sum(a + b) == Sum(a) + Sum(b)
  {
    if b == [] {
      assert a + b == a;
    } else {
      assert (a + b)[..|a + b| - 1] == a + b[..|b| - 1];
      SumConcat(a, b[..|b| - 1]);
    }
  }

  /** What is paid on an instalment at the end of a run is what was paid before and the sum of the accepted payments. */
  lemma PaidIsWhatWasAccepted(t: Table, events: seq<Event>, f: nat, i: nat)
    ensures Sum(PaymentsOn(Replay(t, events), f, i))
            == Sum(PaymentsOn(t, f, i)) + Sum(AcceptedPayments(t, events, f, i))
  {
    PaymentsAreTheRequests(t, events, f, i);
    SumConcat(PaymentsOn(t, f, i), AcceptedPayments(t, events, f, i));
  }

  lemma PlanAdds(t: Table, f: nat, user: UserId, montant: int)
    requires Step(t, Plans(f, user, montant)).Some?
    ensures f < |t| == |Next(t, Plans(f, user, montant))|
    ensures var (rows, rows') := (t[f].disbursements, Next(t, Plans(f, user, montant))[f].disbursements);
            && |rows'| == |rows| + 1 && rows'[..|rows|] == rows
            && rows'[|rows|].createdBy == Some(user) && rows'[|rows|].montant == montant
            && rows'[|rows|].statut == Prevu && rows'[|rows|].executedBy.None?
  {
  }

  /**
   Four eyes on the money: the row that a plan added stays that user's for that amount, and whatever happens afterwards
   that user never executes it.
   */
  lemma PlannerNeverExecutes(t: Table, events: seq<Event>, i: nat, f: nat, user: UserId, montant: int)
    requires Inv(t) && i < |events| && events[i] == Plans(f, user, montant)
    requires Step(Replay(t, events[..i]), events[i]).Some?
    ensures f < |Replay(t, events[..i])| <= |Replay(t, events)|
    ensures var d := |Replay(t, events[..i])[f].disbursements|;
            && d < |Replay(t, events)[f].disbursements|
            && var row := Replay(t, events)[f].disbursements[d];
               && row.createdBy == Some(user) && row.montant == montant
               && row.executedBy != Some(user) && user !in row.executions
  {
    assert events[..i + 1][..i] == events[..i];
    PlanAdds(Replay(t, events[..i]), f, user, montant);
    RunKept(t, events, i + 1);
    RunInv(t, events);
    KeptPlan(Replay(t, events[..i + 1])[f], Replay(t, events)[f], |Replay(t, events[..i])[f].disbursements|, user);
  }

  lemma KeptPlan(before: Financing, after: Financing, d: nat, user: UserId)
    requires Kept(before, after) && FinancingInv(after)
    requires d < |before.disbursements| && before.disbursements[d].createdBy == Some(user)
    ensures d < |after.disbursements| && after.disbursements[d].createdBy == Some(user)
    ensures after.disbursements[d].montant == before.disbursements[d].montant
    ensures after.disbursements[d].executedBy != Some(user) && user !in after.disbursements[d].executions
  {
    assert SameDisbursement(before.disbursements[d], after.disbursements[d]);
    assert MakerChecker(after.disbursements[d]);
  }

  function AmountsOf(asked: seq<Asked>): (r: seq<int>)
    ensures |r| == |asked|
  {
    seq(|asked|, k requires 0 <= k < |asked| => asked[k].montant)
  }

  lemma {:induction false} CommittedOfRecords(rows: seq<Disbursement>, asked: seq<Asked>)
    requires Records(rows, asked)
    ensures Committed(rows) == Sum(AmountsOf(asked))
  {
    if rows != [] {
      var n := |rows| - 1;
      CommittedOfRecords(rows[..n], asked[..n]);
      assert AmountsOf(asked)[..n] == AmountsOf(asked[..n]);
    }
  }

  /** What is committed of a grant is the sum of all accepted requests, planned ones included. */
  lemma CommittedIsWhatWasAccepted(events: seq<Event>, f: nat)
    ensures Committed(RowsOf(Replay([], events), f)) == Sum(AmountsOf(AcceptedDisbursements([], events, f)))
  {
    DisbursementsAreTheRequests(events, f);
    CommittedOfRecords(RowsOf(Replay([], events), f), AcceptedDisbursements([], events, f));
  }
}
