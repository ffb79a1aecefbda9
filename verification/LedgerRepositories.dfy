/**
 The two repositories that write the ledger and the service call that creates a financing, statement by statement
 over the tables, each proved to do what `Ledger.Step` says.
 */
module LedgerRepositories {
  import opened Common
  import opened Ledger
  import A = Amortization
  import C = Calendar

  /** The financing is active and the amount fits into what is granted and not yet committed, to the cent. */
  predicate LeavesRoom(f: Financing, montant: int) {
    f.actif && 0 < montant <= f.montantAccorde - Committed(f.disbursements)
  }

  /** The amount fits into what is still due on instalment `e`, to the cent. */
  predicate LeavesDue(f: Financing, e: nat, montant: int) {
    e < |f.echeances| && 0 < montant <= f.echeances[e].line.totalDue - Sum(f.echeances[e].repayments)
  }

  /** The statements that both repositories run to add a disbursement: sum, number, ceiling, insert. */
  method AppendRow(f: Financing, montant: int, statut: DisbursementStatut, user: UserId) returns (r: Option<Financing>)
    ensures r == Append(f, montant, statut, user)
    ensures r.Some? <==> LeavesRoom(f, montant)
    ensures r.Some? ==> DisbursementAdded(f, r.value, montant, statut, user)
  {
    if !f.actif {
      return None;
    }
    var committed, nextNumber := Committed(f.disbursements), MaxNumero(f.disbursements) + 1;
    if Exceeds(committed, montant, f.montantAccorde) || montant <= 0 {
      return None;
    }
    var row := Disbursement(nextNumber, montant, statut, Some(user), None, []);
    return Some(f.(disbursements := f.disbursements + [row]));
  }

  /** The statements that both repositories run to add a payment: sum, ceiling, insert, status. */
  method RepayRow(f: Financing, e: nat, montant: int) returns (r: Option<Financing>)
    ensures r == Repay(f, e, montant)
    ensures r.Some? <==> LeavesDue(f, e, montant)
    ensures r.Some? ==> PaymentAdded(f, r.value, e, montant)
  {
    if e >= |f.echeances| {
      return None;
    }
    var row := f.echeances[e];
    var paid := Sum(row.repayments);
    if Exceeds(paid, montant, row.line.totalDue) || montant <= 0 {
      return None;
    }
    row := row.(repayments := row.repayments + [montant]);
    row := row.(statut := if paid + montant >= row.line.totalDue then Payee else PartiellementPayee);
    return Some(f.(echeances := f.echeances[e := row]));
  }

  /** The casts `::date` of the due dates, which fail for texts that are no dates. */
  method CastDates(schedule: seq<A.Installment>) returns (ok: bool)
    ensures ok <==> A.Dated(schedule)
  {
    for i := 0 to |schedule|
      invariant A.Dated(schedule[..i])
    {
      if C.ParseIsoDate(schedule[i].dueDate).None? {
        return false;
      }
    }
    assert schedule[..|schedule|] == schedule;
    return true;
  }

  datatype CreateError = NotEligible | BadSchedule(refusal: A.Refusal) | DateRefused | Conflict

  /** The new financing is active, on the terms of the application, with every line of the schedule unpaid. */
  predicate Opens(f: Financing, app: Application, startDate: string, schedule: seq<A.Installment>) {
    && f.dossier == app.dossier && f.entreprise == app.entreprise && f.dateDebut == startDate
    && f.montantAccorde == app.montantApprouve && f.tauxInteret == app.tauxInteret.GetOr(0)
    && f.actif && f.banque.None? && f.disbursements == [] && |f.echeances| == |schedule|
    && forall k :: 0 <= k < |schedule| ==>
         f.echeances[k].line == schedule[k] && f.echeances[k].statut == AVenir && f.echeances[k].repayments == []
  }

  /** What inserting a financing with this schedule answers. */
  function Creation(t: Table, app: Application, schedule: seq<A.Installment>): Result<nat, CreateError> {
    if !A.Dated(schedule) then Err(DateRefused)
    else if HasFinancing(t, app.dossier) then Err(Conflict)
    else Ok(|t|)
  }

  /** The execution of a planned row by a second user, with its audit row. */
  method ExecutedRow(f: Financing, d: nat, user: UserId) returns (outcome: ExecuteOutcome, r: Option<Financing>)
    ensures outcome == ExecuteOutcomeOf(f, d, user) && r == Execute(f, d, user)
    ensures r.Some? ==> ExecutionAdded(f, r.value, d, user)
  {
    if d >= |f.disbursements| {
      return NotFound, None;
    }
    var row := f.disbursements[d];
    if row.statut != Prevu {
      return InvalidState, None;
    }
    if row.createdBy.Some? && row.createdBy.value == user {
      return SelfApproval, None;
    }
    row := row.(statut := Effectue, executedBy := Some(user));
    row := row.(executions := row.executions + [user]);
    return Done, Some(f.(disbursements := f.disbursements[d := row]));
  }

  /** The audit of an execution names its one user. */
  lemma ExecutedOnce(f: Financing, d: nat, user: UserId)
    requires FinancingInv(f) && Execute(f, d, user).Some?
    ensures Execute(f, d, user).value.disbursements[d].executions == [user]
  {
    assert MakerChecker(f.disbursements[d]);
  }

  lemma NewOpens(app: Application, startDate: string, schedule: seq<A.Installment>)
    ensures Opens(NewFinancing(app, startDate, schedule), app, startDate, schedule)
  {
  }

  /** `portfolios` lists the client companies of each partner bank. */
  class Database {
    var financings: Table
    var portfolios: map<nat, set<nat>>

    /** What every run of both repositories keeps, in every financing. */
    ghost predicate Valid()
      reads this
    {
      Inv(financings)
    }

    constructor ()
      ensures Valid() && financings == [] && portfolios == map[]
    {
      financings, portfolios := [], map[];
    }

    function Clients(partner: nat): set<nat>
      reads this
    {
      if partner in portfolios then portfolios[partner] else {}
    }

    /** Writes what transaction `e` makes of the financing it names, if anything. */
    method Put(f: nat, row: Option<Financing>, ghost e: Event) returns (ok: bool)
      requires Valid() && !e.Creates? && e.f == f < |financings| && row == Change(financings[f], e)
      modifies this`financings
      ensures Valid() && AllKept(old(financings), financings)
      ensures financings == Next(old(financings), e) && ok == row.Some?
      ensures ok ==> OnlyTouches(old(financings), financings, f) && financings[f] == row.value
    {
      StepInv(financings, e);
      StepKept(financings, e);
      if row.Some? {
        PutTouches(financings, f, row.value);
        financings := financings[f := row.value];
      }
      return row.Some?;
    }
  }

  /** Direction's repository. */
  class FinancingsRepository {
    const db: Database

    constructor (db: Database)
      ensures this.db == db
    {
      this.db := db;
    }

    /** The cast of the due dates fails before the unique constraint on the dossier is looked at. */
    method CreateFromApplication(app: Application, startDate: string, schedule: seq<A.Installment>)
      returns (r: Result<nat, CreateError>)
      requires db.Valid() && ScheduleOf(app, startDate) == Ok(schedule)
      modifies db`financings
      ensures db.Valid() && AllKept(old(db.financings), db.financings)
      ensures db.financings == Next(old(db.financings), Creates(app, startDate))
      ensures r == Creation(old(db.financings), app, schedule)
      ensures r.Ok? ==> r.value == |old(db.financings)| < |db.financings| && OnSchedule(db.financings[r.value])
      ensures r.Ok? ==> db.financings[..r.value] == old(db.financings) && |db.financings| == r.value + 1
                        && Opens(db.financings[r.value], app, startDate, schedule)
    {
      StepInv(db.financings, Creates(app, startDate));
      StepKept(db.financings, Creates(app, startDate));
      NewOnSchedule(app, startDate, schedule);
      NewOpens(app, startDate, schedule);
      var dated := CastDates(schedule);
      if !dated {
        return Err(DateRefused);
      }
      if HasFinancing(db.financings, app.dossier) {
        return Err(Conflict);
      }
      var financing := Financing(
        app.dossier, app.entreprise, app.montantApprouve, app.tauxInteret.GetOr(0), startDate, true, None,
        NewEcheances(schedule), []);
      r := Ok(|db.financings|);
      db.financings := db.financings + [financing];
    }

    method PlanDisbursement(f: nat, user: UserId, montant: int) returns (ok: bool)
      requires db.Valid()
      modifies db`financings
      ensures db.Valid() && AllKept(old(db.financings), db.financings)
      ensures db.financings == Next(old(db.financings), Plans(f, user, montant))
      ensures ok <==> f < |old(db.financings)| && LeavesRoom(old(db.financings)[f], montant)
      ensures ok ==> Disbursed(old(db.financings), db.financings, f, montant, Prevu, user)
    {
      if f >= |db.financings| {
        AllKeptItself(db.financings);
        return false;
      }
      var row := AppendRow(db.financings[f], montant, Prevu, user);
      ok := db.Put(f, row, Plans(f, user, montant));
    }

    method ExecuteDisbursement(f: nat, d: nat, user: UserId) returns (outcome: ExecuteOutcome)
      requires db.Valid()
      modifies db`financings
      ensures db.Valid() && AllKept(old(db.financings), db.financings)
      ensures db.financings == Next(old(db.financings), Executes(f, d, user))
      ensures outcome == if f < |old(db.financings)| then ExecuteOutcomeOf(old(db.financings)[f], d, user) else NotFound
      ensures var before := old(db.financings);
              match outcome
              case NotFound => f < |before| ==> d >= |before[f].disbursements|
              case InvalidState => before[f].disbursements[d].statut != Prevu
              case SelfApproval => before[f].disbursements[d].createdBy == Some(user)
              case Done => ExecutedIn(before, db.financings, f, d, user)
                           && db.financings[f].disbursements[d].executions == [user]
    {
      if f >= |db.financings| {
        AllKeptItself(db.financings);
        return NotFound;
      }
      ghost var before := db.financings[f];
      var row;
      outcome, row := ExecutedRow(db.financings[f], d, user);
      var written := db.Put(f, row, Executes(f, d, user));
      if written {
        ExecutedOnce(before, d, user);
      }
    }

    method CreateRepayment(f: nat, e: nat, montant: int) returns (ok: bool)
      requires db.Valid()
      modifies db`financings
      ensures db.Valid() && AllKept(old(db.financings), db.financings)
      ensures db.financings == Next(old(db.financings), Repays(f, e, montant))
      ensures ok <==> f < |old(db.financings)| && LeavesDue(old(db.financings)[f], e, montant)
      ensures ok ==> Paid(old(db.financings), db.financings, f, e, montant)
    {
      if f >= |db.financings| {
        AllKeptItself(db.financings);
        return false;
      }
      var row := RepayRow(db.financings[f], e, montant);
      ok := db.Put(f, row, Repays(f, e, montant));
    }
  }

  class FinancingsService {
    const financings: FinancingsRepository

    constructor (financings: FinancingsRepository)
      ensures this.financings == financings
    {
      this.financings := financings;
    }

    /** `application` is what the eligibility query returned, at some earlier time. */
    method CreateFromApplication(application: Option<Application>, startDate: string)
      returns (r: Result<nat, CreateError>)
      requires financings.db.Valid()
      modifies financings.db`financings
      ensures financings.db.Valid() && AllKept(old(financings.db.financings), financings.db.financings)
      ensures var before := old(financings.db.financings);
              if application.None? then r == Err(NotEligible) && financings.db.financings == before
              else if ScheduleOf(application.value, startDate).Err? then
                && r == Err(BadSchedule(ScheduleOf(application.value, startDate).error))
                && financings.db.financings == before
              else
                && financings.db.financings == Next(before, Creates(application.value, startDate))
                && r == Creation(before, application.value, ScheduleOf(application.value, startDate).value)
    {
      if application.None? {
        return Err(NotEligible);
      }
      var app := application.value;
      var rate := app.tauxInteret.GetOr(0);
      var schedule := A.BuildAmortizationSchedule(app.montantApprouve, rate, app.dureeMois, startDate);
      if schedule.Err? {
        return Err(BadSchedule(schedule.error));
      }
      r := financings.CreateFromApplication(app, startDate, schedule.value);
    }
  }

  /** The scope of a partner: financings it is the bank of, and those of its client companies. */
  predicate OfPartner(f: Financing, partner: nat, clients: set<nat>) {
    f.banque == Some(partner) || f.entreprise in clients
  }

  /** A disbursement that a partner declares: executed when inserted. */
  method DeclaredRow(f: Financing, partner: nat, clients: set<nat>, user: UserId, montant: int)
    returns (r: Option<Financing>)
    ensures r == if InScope(f, partner, clients) then Append(f, montant, Effectue, user) else None
    ensures r.Some? <==> OfPartner(f, partner, clients) && LeavesRoom(f, montant)
    ensures r.Some? ==> DisbursementAdded(f, r.value, montant, Effectue, user)
  {
    if !(f.banque == Some(partner) || f.entreprise in clients) {
      return None;
    }
    r := AppendRow(f, montant, Effectue, user);
  }

  method DeclaredPayment(f: Financing, partner: nat, clients: set<nat>, e: nat, montant: int)
    returns (r: Option<Financing>)
    ensures r == if InScope(f, partner, clients) then Repay(f, e, montant) else None
    ensures r.Some? <==> OfPartner(f, partner, clients) && LeavesDue(f, e, montant)
    ensures r.Some? ==> PaymentAdded(f, r.value, e, montant)
  {
    if !(f.banque == Some(partner) || f.entreprise in clients) {
      return None;
    }
    r := RepayRow(f, e, montant);
  }

  /** The partner banks' repository. */
  class PartnerRepository {
    const db: Database

    constructor (db: Database)
      ensures this.db == db
    {
      this.db := db;
    }

    method CreateDisbursement(partner: nat, f: nat, user: UserId, montant: int) returns (ok: bool)
      requires db.Valid()
      modifies db`financings
      ensures db.Valid() && AllKept(old(db.financings), db.financings)
      ensures db.financings ==
              Next(old(db.financings), PartnerDisburses(partner, db.Clients(partner), f, user, montant))
      ensures ok <==> f < |old(db.financings)| && OfPartner(old(db.financings)[f], partner, db.Clients(partner))
                      && LeavesRoom(old(db.financings)[f], montant)
      ensures ok ==> Disbursed(old(db.financings), db.financings, f, montant, Effectue, user)
    {
      if f >= |db.financings| {
        AllKeptItself(db.financings);
        return false;
      }
      var row := DeclaredRow(db.financings[f], partner, db.Clients(partner), user, montant);
      ok := db.Put(f, row, PartnerDisburses(partner, db.Clients(partner), f, user, montant));
    }

    method CreateRepayment(partner: nat, f: nat, e: nat, montant: int) returns (ok: bool)
      requires db.Valid()
      modifies db`financings
      ensures db.Valid() && AllKept(old(db.financings), db.financings)
      ensures db.financings == Next(old(db.financings), PartnerRepays(partner, db.Clients(partner), f, e, montant))
      ensures ok <==> f < |old(db.financings)| && OfPartner(old(db.financings)[f], partner, db.Clients(partner))
                      && LeavesDue(old(db.financings)[f], e, montant)
      ensures ok ==> Paid(old(db.financings), db.financings, f, e, montant)
    {
      if f >= |db.financings| {
        AllKeptItself(db.financings);
        return false;
      }
      var row := DeclaredPayment(db.financings[f], partner, db.Clients(partner), e, montant);
      ok := db.Put(f, row, PartnerRepays(partner, db.Clients(partner), f, e, montant));
    }
  }
}
