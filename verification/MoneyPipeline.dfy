/**
 From the committee's approval to the money paid out and back: dossiers and ledger together, with services
 whose reads may be arbitrarily stale when their repository runs.
 */
module MoneyPipeline {
  import opened Common
  import A = Amortization
  import L = Ledger
  import W = Workflow

  /** `eligible`: applications some read returned; `requested`: requests that passed a service's check on some read. */
  datatype World = World(
    dossiers: map<nat, W.World>, ledger: L.Table, eligible: set<L.Application>, requested: set<L.Event>)

  datatype Event =
    | DossierCreated(id: nat, owner: nat, programme: nat, montantDemande: nat)
    | DossierMoves(id: nat, event: W.Event)
    | EligibleReads(id: nat)
    | FinancingCreates(app: L.Application, startDate: string)
    | ServiceReads(request: L.Event)
    | RepositoryRuns(request: L.Event, clients: set<nat>)
    | BankAssigned(f: nat, banque: nat)

  /** The latest decision, when it approves a financing this dossier does not have yet. */
  function FindEligible(w: World, id: nat): Option<L.Application> {
    if id !in w.dossiers then None
    else
      var d := w.dossiers[id].dossier;
      if d.statut != W.Approuve || d.decisions == [] || L.HasFinancing(w.ledger, id) then None
      else
        var last := d.decisions[|d.decisions| - 1];
        if last.decision == W.Approuve && last.montantApprouve.GetOr(0) > 0 && 1 <= last.dureeMois.GetOr(0) <= 120
        then Some(L.Application(id, d.owner, last.montantApprouve.value, last.tauxInteret, last.dureeMois.value))
        else None
  }

  /** What the services check on the financing they read before they call the repository. */
  predicate Checked(t: L.Table, r: L.Event) {
    match r
    case Creates(_, _) => false
    case BankAssigned(_, _) => false
    case Executes(f, _, _) => f < |t|
    case Plans(f, _, montant) => f < |t| && RoomLeft(t[f], montant)
    case Repays(f, e, montant) => f < |t| && e < |t[f].echeances| && DueLeft(t[f].echeances[e], montant)
    case PartnerDisburses(partner, clients, f, _, montant) =>
      f < |t| && L.InScope(t[f], partner, clients) && RoomLeft(t[f], montant)
    case PartnerRepays(partner, clients, f, e, montant) =>
      f < |t| && L.InScope(t[f], partner, clients) && e < |t[f].echeances| && DueLeft(t[f].echeances[e], montant)
  }

  predicate RoomLeft(f: L.Financing, montant: int) {
    L.AvailableAmount(montant, L.Committed(f.disbursements), f.montantAccorde)
  }

  predicate DueLeft(e: L.Echeance, montant: int) {
    L.AvailableAmount(montant, L.Sum(e.repayments), e.line.totalDue)
  }

  /** The request with the portfolio found by the repository, not the one the service read. */
  function WithClients(r: L.Event, clients: set<nat>): L.Event {
    match r
    case PartnerDisburses(partner, _, f, user, montant) => L.PartnerDisburses(partner, clients, f, user, montant)
    case PartnerRepays(partner, _, f, e, montant) => L.PartnerRepays(partner, clients, f, e, montant)
    case _ => r
  }

  function Next(w: World, e: Event, model: W.Model): World {
    match e
    case DossierCreated(id, owner, programme, montant) =>
      if id in w.dossiers then w
      else w.(dossiers := w.dossiers[id := W.Start(W.NewDossier(owner, programme, montant))])
    case DossierMoves(id, event) =>
      if id in w.dossiers then w.(dossiers := w.dossiers[id := W.Next(w.dossiers[id], event, model)]) else w
    case EligibleReads(id) =>
      (match FindEligible(w, id)
       case Some(app) => w.(eligible := w.eligible + {app})
       case None => w)
    case FinancingCreates(app, startDate) =>
      if app in w.eligible then w.(ledger := L.Next(w.ledger, L.Creates(app, startDate))) else w
    case ServiceReads(request) =>
      if Checked(w.ledger, request) then w.(requested := w.requested + {request}) else w
    case RepositoryRuns(request, clients) =>
      if request in w.requested then w.(ledger := L.Next(w.ledger, WithClients(request, clients))) else w
    case BankAssigned(f, banque) => w.(ledger := L.Next(w.ledger, L.BankAssigned(f, banque)))
  }

  const EMPTY := World(map[], [], {}, {})

  function Replay(events: seq<Event>, model: W.Model): World {
    if events == [] then EMPTY else Next(Replay(events[..|events| - 1], model), events[|events| - 1], model)
  }

  // ---- What every run keeps ---------------------------------------------------------------------

  /** The dossier is approved, finally, on the terms of the application. */
  predicate Approved(dossiers: map<nat, W.World>, app: L.Application) {
    && app.dossier in dossiers
    && var d := dossiers[app.dossier].dossier;
       && d.statut == W.Approuve && d.decisions != [] && d.owner == app.entreprise
       && var last := d.decisions[|d.decisions| - 1];
          && last.montantApprouve == Some(app.montantApprouve)
          && last.tauxInteret == app.tauxInteret
          && last.dureeMois == Some(app.dureeMois)
  }

  /** The financing carries the terms of the last decision on its dossier. */
  predicate OnApprovedTerms(dossiers: map<nat, W.World>, f: L.Financing) {
    && f.dossier in dossiers
    && var d := dossiers[f.dossier].dossier;
       && d.statut == W.Approuve && d.decisions != [] && d.owner == f.entreprise
       && SameTerms(d.decisions[|d.decisions| - 1], f)
  }

  /** Amount, rate (none is 0) and duration. */
  predicate SameTerms(decision: W.Decision, f: L.Financing) {
    && decision.montantApprouve == Some(f.montantAccorde)
    && decision.tauxInteret.GetOr(0) == f.tauxInteret
    && decision.dureeMois == Some(|f.echeances|)
  }

  predicate Backed(dossiers: map<nat, W.World>, t: L.Table) {
    forall i :: 0 <= i < |t| ==> OnApprovedTerms(dossiers, t[i])
  }

  ghost predicate DossiersInv(dossiers: map<nat, W.World>, model: W.Model) {
    forall id :: id in dossiers ==> W.Inv(dossiers[id], model)
  }

  ghost predicate Inv(w: World, model: W.Model) {
    && DossiersInv(w.dossiers, model)
    && (forall app :: app in w.eligible ==> Approved(w.dossiers, app))
    && (forall r :: r in w.requested ==> !r.Creates?)
    && L.Inv(w.ledger)
    && Backed(w.dossiers, w.ledger)
  }

  predicate AllSettled(before: map<nat, W.World>, after: map<nat, W.World>) {
    forall id :: id in before ==> id in after && W.Settled(before[id].dossier, after[id].dossier)
  }

  /** What rests on an approval stays true while approved dossiers keep their decisions. */
  lemma ApprovalsStay(w: World, dossiers: map<nat, W.World>)
    requires forall app :: app in w.eligible ==> Approved(w.dossiers, app)
    requires Backed(w.dossiers, w.ledger)
    requires AllSettled(w.dossiers, dossiers)
    ensures forall app :: app in w.eligible ==> Approved(dossiers, app)
    ensures Backed(dossiers, w.ledger)
  {
    forall app | app in w.eligible ensures Approved(dossiers, app) {
      assert Approved(w.dossiers, app);
    }
    forall i | 0 <= i < |w.ledger| ensures OnApprovedTerms(dossiers, w.ledger[i]) {
      assert OnApprovedTerms(w.dossiers, w.ledger[i]);
    }
  }

  lemma SettledItself(d: W.Dossier)
    ensures W.Settled(d, d)
  {
  }

  lemma SettledPut(dossiers: map<nat, W.World>, id: nat, d: W.World)
    requires id in dossiers ==> W.Settled(dossiers[id].dossier, d.dossier)
    ensures AllSettled(dossiers, dossiers[id := d])
  {
    forall k | k in dossiers ensures W.Settled(dossiers[k].dossier, dossiers[id := d][k].dossier) {
      SettledItself(dossiers[k].dossier);
    }
  }

  lemma DossiersPut(dossiers: map<nat, W.World>, id: nat, d: W.World, model: W.Model)
    requires DossiersInv(dossiers, model) && W.Inv(d, model)
    ensures DossiersInv(dossiers[id := d], model)
  {
  }

  /** Replacing or adding one dossier that keeps what is settled. */
  lemma PutDossier(w: World, id: nat, d: W.World, model: W.Model)
    requires Inv(w, model) && W.Inv(d, model)
    requires id in w.dossiers ==> W.Settled(w.dossiers[id].dossier, d.dossier)
    ensures Inv(w.(dossiers := w.dossiers[id := d]), model)
  {
    SettledPut(w.dossiers, id, d);
    DossiersPut(w.dossiers, id, d, model);
    ApprovalsStay(w, w.dossiers[id := d]);
  }

  /** An approval is final, so dossiers moving on invalidate nothing that rests on one. */
  lemma DossierMovesInv(w: World, id: nat, event: W.Event, model: W.Model)
    requires Inv(w, model) && id in w.dossiers
    ensures Inv(Next(w, DossierMoves(id, event), model), model)
  {
    W.StepInv(w.dossiers[id], event, model);
    W.StepSettled(w.dossiers[id], event, model);
    PutDossier(w, id, W.Next(w.dossiers[id], event, model), model);
  }

  lemma DossierCreatedInv(w: World, id: nat, owner: nat, programme: nat, montant: nat, model: W.Model)
    requires Inv(w, model) && id !in w.dossiers
    ensures Inv(Next(w, DossierCreated(id, owner, programme, montant), model), model)
  {
    PutDossier(w, id, W.Start(W.NewDossier(owner, programme, montant)), model);
  }

  lemma KeptTerms(dossiers: map<nat, W.World>, before: L.Table, after: L.Table)
    requires Backed(dossiers, before) && L.AllKept(before, after) && |after| == |before|
    ensures Backed(dossiers, after)
  {
    forall i | 0 <= i < |after| ensures OnApprovedTerms(dossiers, after[i]) {
      assert L.Kept(before[i], after[i]) && OnApprovedTerms(dossiers, before[i]);
    }
  }

  lemma LedgerInv(w: World, e: L.Event)
    requires L.Inv(w.ledger) && Backed(w.dossiers, w.ledger) && !e.Creates?
    ensures L.Inv(L.Next(w.ledger, e)) && Backed(w.dossiers, L.Next(w.ledger, e))
  {
    L.StepInv(w.ledger, e);
    L.StepKept(w.ledger, e);
    KeptTerms(w.dossiers, w.ledger, L.Next(w.ledger, e));
  }

  lemma NewFinancingBacked(
    dossiers: map<nat, W.World>, t: L.Table, app: L.Application, startDate: string, rows: seq<A.Installment>)
    requires Backed(dossiers, t) && Approved(dossiers, app) && |rows| == app.dureeMois
    requires L.Create(t, app, startDate, rows).Some?
    ensures Backed(dossiers, L.Create(t, app, startDate, rows).value)
  {
  }

  lemma CreatesInv(w: World, app: L.Application, startDate: string)
    requires L.Inv(w.ledger) && Backed(w.dossiers, w.ledger) && Approved(w.dossiers, app)
    ensures var t := L.Next(w.ledger, L.Creates(app, startDate)); L.Inv(t) && Backed(w.dossiers, t)
  {
    var schedule := L.ScheduleOf(app, startDate);
    if schedule.Ok? && L.Create(w.ledger, app, startDate, schedule.value).Some? {
      L.ScheduleOfPaysBack(app, startDate);
      L.CreateInv(w.ledger, app, startDate, schedule.value);
      NewFinancingBacked(w.dossiers, w.ledger, app, startDate, schedule.value);
    }
  }

  /** The ledger event an event runs, if any. */
  function LedgerEvent(w: World, e: Event): Option<L.Event> {
    match e
    case FinancingCreates(app, startDate) => if app in w.eligible then Some(L.Creates(app, startDate)) else None
    case RepositoryRuns(request, clients) =>
      if request in w.requested then Some(WithClients(request, clients)) else None
    case BankAssigned(f, banque) => Some(L.BankAssigned(f, banque))
    case _ => None
  }

  /** The events that run a ledger transaction. */
  lemma LedgerStepInv(w: World, e: Event, model: W.Model)
    requires Inv(w, model) && LedgerEvent(w, e).Some?
    ensures Inv(Next(w, e, model), model)
  {
    var event := LedgerEvent(w, e).value;
    if event.Creates? {
      CreatesInv(w, event.app, event.startDate);
    } else {
      LedgerInv(w, event);
    }
  }

  lemma StepInv(w: World, e: Event, model: W.Model)
    requires Inv(w, model)
    ensures Inv(Next(w, e, model), model)
  {
    if LedgerEvent(w, e).Some? {
      LedgerStepInv(w, e, model);
    } else if e.ServiceReads? || e.EligibleReads? {
      ReadInv(w, e, model);
    } else if Next(w, e, model) != w {
      match e
      case DossierCreated(id, owner, programme, montant) => DossierCreatedInv(w, id, owner, programme, montant, model);
      case DossierMoves(id, event) => DossierMovesInv(w, id, event, model);
    }
  }

  lemma EligibleAdded(w: World, app: L.Application, model: W.Model)
    requires Inv(w, model) && Approved(w.dossiers, app)
    ensures Inv(w.(eligible := w.eligible + {app}), model)
  {
  }

  lemma RequestAdded(w: World, request: L.Event, model: W.Model)
    requires Inv(w, model) && !request.Creates?
    ensures Inv(w.(requested := w.requested + {request}), model)
  {
  }

  /** Reads only keep what they found. */
  lemma ReadInv(w: World, e: Event, model: W.Model)
    requires Inv(w, model) && (e.ServiceReads? || e.EligibleReads?)
    ensures Inv(Next(w, e, model), model)
  {
    if e.ServiceReads? {
      if Checked(w.ledger, e.request) {
        RequestAdded(w, e.request, model);
      }
    } else if FindEligible(w, e.id).Some? {
      assert e.id in w.dossiers ==> W.Inv(w.dossiers[e.id], model);
      EligibleMeans(w, e.id, model);
      EligibleAdded(w, FindEligible(w, e.id).value, model);
    }
  }

  predicate Financed(t: L.Table, id: nat) {
    exists i :: 0 <= i < |t| && t[i].dossier == id
  }

  lemma EligibleMeans(w: World, id: nat, model: W.Model)
    requires id in w.dossiers ==> W.Decided(w.dossiers[id].dossier)
    ensures var app := FindEligible(w, id);
            && (app.Some? <==>
                  id in w.dossiers && w.dossiers[id].dossier.statut == W.Approuve && !Financed(w.ledger, id))
            && (app.Some? ==> app.value.dossier == id && Approved(w.dossiers, app.value))
  {
  }

  lemma {:induction false} RunInv(events: seq<Event>, model: W.Model)
    ensures Inv(Replay(events, model), model)
  {
    if events != [] {
      RunInv(events[..|events| - 1], model);
      StepInv(Replay(events[..|events| - 1], model), events[|events| - 1], model);
    }
  }

  lemma LedgerAfter(w: World, e: Event, model: W.Model)
    ensures Next(w, e, model).ledger ==
            match LedgerEvent(w, e)
            case Some(event) => L.Next(w.ledger, event)
            case None => w.ledger
  {
  }

  /** A partner's request writes only in the scope that the partner has when its transaction runs, whatever was read. */
  lemma PartnersWriteInTheirScope(w: World, request: L.Event, clients: set<nat>, model: W.Model)
    requires request.PartnerDisburses? || request.PartnerRepays?
    requires Next(w, RepositoryRuns(request, clients), model) != w
    ensures request in w.requested && request.f < |w.ledger|
    ensures w.ledger[request.f].banque == Some(request.partner) || w.ledger[request.f].entreprise in clients
  {
  }

  /** In every run, exactly the approved dossiers without a financing are eligible, on the terms of their approval. */
  lemma EligibleIffApproved(events: seq<Event>, model: W.Model, id: nat)
    ensures var w := Replay(events, model);
            var app := FindEligible(w, id);
            && (app.Some? <==>
                  id in w.dossiers && w.dossiers[id].dossier.statut == W.Approuve && !Financed(w.ledger, id))
            && (app.Some? ==> app.value.dossier == id && Approved(w.dossiers, app.value))
  {
    var w := Replay(events, model);
    RunInv(events, model);
    assert id in w.dossiers ==> W.Inv(w.dossiers[id], model);
    EligibleMeans(w, id, model);
  }

  lemma StepOnSchedule(w: World, e: Event, model: W.Model)
    requires L.Inv(w.ledger) && L.AllOnSchedule(w.ledger)
    ensures L.AllOnSchedule(Next(w, e, model).ledger)
  {
    LedgerAfter(w, e, model);
    if LedgerEvent(w, e).Some? {
      L.StepOnSchedule(w.ledger, LedgerEvent(w, e).value);
    }
  }

  lemma {:induction false} RunOnSchedule(events: seq<Event>, model: W.Model)
    ensures L.AllOnSchedule(Replay(events, model).ledger)
  {
    if events != [] {
      var front := events[..|events| - 1];
      RunOnSchedule(front, model);
      RunInv(front, model);
      StepOnSchedule(Replay(front, model), events[|events| - 1], model);
    }
  }

  /**
   The financing is its company's, on the terms of the dossier's one approval, its last decision: the amount, the rate
   and the duration that a member of the committee sent.
   */
  predicate GrantedBy(w: W.World, f: L.Financing) {
    var d := w.dossier;
    && d.statut == W.Approuve && d.decisions != [] && d.owner == f.entreprise
    && d.decisions[|d.decisions| - 1].decision == W.Approuve
    && SameTerms(d.decisions[|d.decisions| - 1], f)
    && (forall k :: 0 <= k < |d.decisions| && d.decisions[k].decision == W.Approuve ==> k == |d.decisions| - 1)
    && w.approval.Some?
    && var sent := w.approval.value.input;
       && sent.decision == W.Approuve && sent.montantApprouve == Some(f.montantAccorde)
       && sent.tauxInteret.GetOr(0) == f.tauxInteret && sent.dureeMois == Some(|f.echeances|)
  }

  lemma TermsAreTheCommittees(w: W.World, f: L.Financing)
    requires W.ApprovalHolds(w) && W.Decided(w.dossier) && w.dossier.statut == W.Approuve
    requires w.dossier.decisions != [] && w.dossier.owner == f.entreprise
    requires SameTerms(w.dossier.decisions[|w.dossier.decisions| - 1], f)
    ensures GrantedBy(w, f)
  {
  }

  lemma AllGranted(w: World, model: W.Model, i: nat)
    requires Inv(w, model) && i < |w.ledger|
    ensures w.ledger[i].dossier in w.dossiers && GrantedBy(w.dossiers[w.ledger[i].dossier], w.ledger[i])
  {
    var f := w.ledger[i];
    assert OnApprovedTerms(w.dossiers, f);
    assert W.Inv(w.dossiers[f.dossier], model);
    TermsAreTheCommittees(w.dossiers[f.dossier], f);
  }

  /** The committee's update landed on the history that its read had found. */
  predicate ApprovedOnItsRead(w: W.World) {
    w.approval.Some? && w.approval.value.at + 1 == |w.dossier.history|
  }

  /**
   Every financing is on the terms that the committee sent with the one approval on its dossier; its lines are the
   schedule of exactly these terms, and pay back exactly what is granted; it pays out at most that; and its columns
   agree with its rows.
   */
  lemma MoneyIsApproved(events: seq<Event>, model: W.Model, i: nat)
    requires i < |Replay(events, model).ledger|
    ensures var w := Replay(events, model);
            var f := w.ledger[i];
            && f.dossier in w.dossiers
            && GrantedBy(w.dossiers[f.dossier], f)
            && L.OnSchedule(f) && L.PaysBack(L.Lines(f.echeances), f.montantAccorde)
            && L.Committed(f.disbursements) <= f.montantAccorde
            && L.Numbered(f.disbursements)
            && (forall k :: 0 <= k < |f.disbursements| ==> L.MakerChecker(f.disbursements[k]))
            && (forall k :: 0 <= k < |f.echeances| ==> L.StatusAgrees(f.echeances[k]))
  {
    RunInv(events, model);
    RunOnSchedule(events, model);
    var w := Replay(events, model);
    AllGranted(w, model, i);
    assert L.FinancingInv(w.ledger[i]);
  }

  predicate GrantWithin(w: W.World, f: L.Financing) {
    ApprovedOnItsRead(w) ==> f.montantAccorde <= w.dossier.montantDemande
  }

  lemma TermsWithin(w: W.World, f: L.Financing)
    requires W.ApprovalHolds(w) && w.dossier.statut == W.Approuve && w.dossier.decisions != []
    requires SameTerms(w.dossier.decisions[|w.dossier.decisions| - 1], f)
    ensures GrantWithin(w, f)
  {
  }

  lemma AllGrantsWithin(w: World, model: W.Model, i: nat)
    requires Inv(w, model) && i < |w.ledger|
    ensures w.ledger[i].dossier in w.dossiers && GrantWithin(w.dossiers[w.ledger[i].dossier], w.ledger[i])
  {
    var f := w.ledger[i];
    assert OnApprovedTerms(w.dossiers, f);
    assert W.Inv(w.dossiers[f.dossier], model);
    TermsWithin(w.dossiers[f.dossier], f);
  }

  /** What is granted was within the amount requested, if the committee decided on the history it had read. */
  lemma GrantWithinRequest(events: seq<Event>, model: W.Model, i: nat)
    requires i < |Replay(events, model).ledger|
    ensures var w := Replay(events, model);
            w.ledger[i].dossier in w.dossiers && GrantWithin(w.dossiers[w.ledger[i].dossier], w.ledger[i])
  {
    RunInv(events, model);
    AllGrantsWithin(Replay(events, model), model, i);
  }

  /**
   The services' checks and the repositories' are the same: a request checked on the current rows is refused only for a
   disbursement on a financing that is no longer active. So every other conflict means that the rows changed in between.
   */
  lemma ChecksAgree(t: L.Table, r: L.Event)
    requires !r.Creates? && !r.BankAssigned? && !r.Executes?
    ensures L.Step(t, r).Some? <==> Checked(t, r) && (r.Plans? || r.PartnerDisburses? ==> t[r.f].actif)
  {
  }

  /** A dossier is financed at most once, whatever eligibility reads were kept. */
  lemma {:induction false} OneFinancingPerDossier(events: seq<Event>, model: W.Model, i: nat, j: nat)
    requires i < j < |Replay(events, model).ledger|
    ensures Replay(events, model).ledger[i].dossier != Replay(events, model).ledger[j].dossier
  {
    RunInv(events, model);
  }
}
