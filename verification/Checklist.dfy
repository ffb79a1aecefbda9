/**
 Dossiers and programmes together: the rule version a dossier is judged against, locked at its first
 submission, and the mandatory documents that version asks for.
 */
module Checklist {
  import opened Common
  import P = Programmes
  import R = ProgrammeRepositories
  import W = Workflow

  datatype World = World(programmes: R.Tables, dossiers: map<nat, W.Dossier>)

  datatype Event =
    | ProgrammeCreated(id: nat, actor: P.UserId, now: nat, content: P.Content, asProposal: bool)
    | ProgrammeChanged(id: nat, event: P.Event)
    | DossierCreated(id: nat, owner: nat, programme: nat, montantDemande: nat, now: nat)
    | DossierWritten(id: nat, write: W.Write, now: nat)

  function TimeOf(e: Event): nat {
    match e
    case ProgrammeCreated(_, _, now, _, _) => now
    case ProgrammeChanged(_, event) => event.now
    case DossierCreated(_, _, _, _, now) => now
    case DossierWritten(_, _, now) => now
  }

  /** The rule version in force for a programme, as the submission and the checklist look it up. */
  function EffectiveRule(programmes: R.Tables, programme: nat, now: nat): Option<W.RuleVersion> {
    if programme !in programmes then None
    else match P.Effective(programmes[programme].versions, now)
      case None => None
      case Some(i) => Some(W.RuleVersion(programme, programmes[programme].versions[i].number))
  }

  /** The foreign key on the programme. */
  predicate ProgrammeExists(programmes: R.Tables, write: W.Write) {
    write.UpdateOwned? && write.programme.Some? ==> write.programme.value in programmes
  }

  function Next(w: World, e: Event): World {
    match e
    case ProgrammeCreated(id, actor, now, content, asProposal) =>
      (match P.Create(actor, now, content, asProposal)
       case Ok(p) => if id in w.programmes then w else w.(programmes := w.programmes[id := p])
       case Err(_) => w)
    case ProgrammeChanged(id, event) => w.(programmes := R.Commit(w.programmes, id, event))
    case DossierCreated(id, owner, programme, montant, _) =>
      if id in w.dossiers || programme !in w.programmes then w
      else w.(dossiers := w.dossiers[id := W.NewDossier(owner, programme, montant)])
    case DossierWritten(id, write, now) =>
      if id !in w.dossiers || !ProgrammeExists(w.programmes, write) then w
      else
        var d := w.dossiers[id];
        w.(dossiers := w.dossiers[id := W.Written(d, write, EffectiveRule(w.programmes, d.programme, now))])
  }

  function Replay(w: World, events: seq<Event>): World {
    if events == [] then w else Next(Replay(w, events[..|events| - 1]), events[|events| - 1])
  }

  /** `WHERE obligatoire = TRUE`. */
  function Mandatory(documents: seq<P.Document>): seq<P.Document> {
    if documents == [] then []
    else Mandatory(documents[..|documents| - 1])
         + if documents[|documents| - 1].obligatoire then [documents[|documents| - 1]] else []
  }

  /** The documents of one version, and none when there is no such version. */
  function VersionDocuments(p: P.Programme, number: nat): seq<P.Document> {
    match P.Find(p.versions, number)
    case None => []
    case Some(i) => p.versions[i].content.documents
  }

  function DocumentsOf(programmes: R.Tables, v: W.RuleVersion): seq<P.Document> {
    if v.programme in programmes then VersionDocuments(programmes[v.programme], v.number) else []
  }

  /** The version a dossier is judged against: its locked one, else the one in force. */
  function JudgedBy(w: World, d: W.Dossier, now: nat): Option<W.RuleVersion> {
    if d.regle.Some? then d.regle else EffectiveRule(w.programmes, d.programme, now)
  }

  function MandatoryDocuments(w: World, d: W.Dossier, now: nat): seq<P.Document> {
    match JudgedBy(w, d, now)
    case Some(v) => Mandatory(DocumentsOf(w.programmes, v))
    case None => if d.programme in w.programmes then Mandatory(w.programmes[d.programme].requis) else []
  }

  /** The mandatory documents are exactly those marked so, each as often as it is there. */
  lemma {:induction false} MandatoryAreTheObligatory(documents: seq<P.Document>)
    ensures forall d: P.Document :: d in Mandatory(documents) <==> d in documents && d.obligatoire
    ensures forall d: P.Document :: d.obligatoire ==> multiset(Mandatory(documents))[d] == multiset(documents)[d]
  {
    if documents != [] {
      var front, last := documents[..|documents| - 1], documents[|documents| - 1];
      assert documents == front + [last];
      MandatoryAreTheObligatory(front);
    }
  }

  // ---------------------------------------------------------------------------------------------
  // What every run keeps
  // ---------------------------------------------------------------------------------------------

  /** A locked version is a published one of the dossier's own programme; drafts are unlocked. */
  predicate Locked(programmes: R.Tables, d: W.Dossier) {
    && d.programme in programmes
    && (d.statut == W.Brouillon ==> d.regle.None?)
    && (d.regle.Some? ==>
          && d.regle.value.programme == d.programme
          && 1 <= d.regle.value.number <= P.Published(programmes[d.programme]))
  }

  ghost predicate Inv(w: World, clock: nat) {
    && (forall id :: id in w.programmes ==> P.Inv(w.programmes[id], clock))
    && (forall id :: id in w.dossiers ==> Locked(w.programmes, w.dossiers[id]))
  }

  ghost predicate Allowed(e: Event, model: W.Model) {
    e.DossierWritten? ==> W.Issuable(e.write, model)
  }

  lemma InvLater(w: World, before: nat, now: nat)
    requires Inv(w, before) && before <= now
    ensures Inv(w, now)
  {
    forall id | id in w.programmes
      ensures P.Inv(w.programmes[id], now)
    {
      P.InvLater(w.programmes[id], before, now);
    }
  }

  /** The last published version is the one in force, unless it is a baseline still to come. */
  lemma EffectiveIsPublished(programmes: R.Tables, programme: nat, clock: nat, now: nat)
    requires programme in programmes && P.Inv(programmes[programme], clock) && clock <= now
    ensures var p := programmes[programme];
            var n := P.Published(p);
            && EffectiveRule(programmes, programme, now) ==
               (if n == 0 || p.versions[n - 1].effectiveFrom > now then None else Some(W.RuleVersion(programme, n)))
            && (n > p.baseline ==> EffectiveRule(programmes, programme, now).Some?)
  {
    P.EffectiveIsLastPublished(programmes[programme], clock, now);
  }

  lemma WriteKeepsLock(programmes: R.Tables, d: W.Dossier, write: W.Write, now: nat, model: W.Model)
    requires Locked(programmes, d) && W.Issuable(write, model)
    requires P.Inv(programmes[d.programme], now)
    requires ProgrammeExists(programmes, write)
    ensures var d' := W.Written(d, write, EffectiveRule(programmes, d.programme, now));
            && Locked(programmes, d')
            && (d.regle.Some? ==> d'.regle == d.regle && d'.programme == d.programme)
  {
    EffectiveIsPublished(programmes, d.programme, now, now);
  }

  lemma SameVersionDocuments(p: P.Programme, q: P.Programme, clock: nat, number: nat)
    requires P.Inv(p, clock) && P.Inv(q, clock) && 1 <= number <= |p.versions| && number <= |q.versions|
    requires q.versions[number - 1].content == p.versions[number - 1].content
    ensures VersionDocuments(q, number) == VersionDocuments(p, number)
  {
    P.FindByPosition(p, clock, number);
    P.FindByPosition(q, clock, number);
  }

  /** Programme steps never unpublish a version nor touch the documents of a published one. */
  lemma PublishedDocumentsStay(p: P.Programme, e: P.Event, number: nat)
    requires P.Inv(p, e.now) && 1 <= number <= P.Published(p)
    ensures number <= P.Published(P.Next(p, e)) && VersionDocuments(P.Next(p, e), number) == VersionDocuments(p, number)
  {
    P.PublishedContentStays(p, e, number - 1);
    SameVersionDocuments(p, P.Next(p, e), e.now, number);
  }

  lemma PutProgramme(w: World, clock: nat, id: nat, p: P.Programme)
    requires Inv(w, clock) && P.Inv(p, clock)
    requires id in w.programmes ==> P.Published(w.programmes[id]) <= P.Published(p)
    ensures Inv(w.(programmes := w.programmes[id := p]), clock)
  {
    R.PutKeeps(w.programmes, id, p, clock);
    forall k | k in w.dossiers ensures Locked(w.programmes[id := p], w.dossiers[k]) {
      assert Locked(w.programmes, w.dossiers[k]);
    }
  }

  lemma PutDossier(w: World, clock: nat, id: nat, d: W.Dossier)
    requires Inv(w, clock) && Locked(w.programmes, d)
    ensures Inv(w.(dossiers := w.dossiers[id := d]), clock)
  {
  }

  lemma StepInv(w: World, e: Event, model: W.Model)
    requires Inv(w, TimeOf(e)) && Allowed(e, model)
    ensures Inv(Next(w, e), TimeOf(e))
  {
    if Next(w, e) != w {
      match e
      case ProgrammeCreated(id, actor, now, content, asProposal) =>
        P.CreateInv(actor, now, content, asProposal);
        PutProgramme(w, now, id, P.Create(actor, now, content, asProposal).value);
      case ProgrammeChanged(id, event) =>
        P.StepInv(w.programmes[id], event);
        PutProgramme(w, event.now, id, P.Next(w.programmes[id], event));
      case DossierCreated(id, owner, programme, montant, now) =>
        PutDossier(w, now, id, W.NewDossier(owner, programme, montant));
      case DossierWritten(id, write, now) =>
        WriteKeepsLock(w.programmes, w.dossiers[id], write, now, model);
        PutDossier(w, now, id, Next(w, e).dossiers[id]);
    }
  }

  // ---------------------------------------------------------------------------------------------
  // Runs
  // ---------------------------------------------------------------------------------------------

  ghost predicate Timed(start: nat, events: seq<Event>) {
    && (forall i :: 0 <= i < |events| ==> start <= TimeOf(events[i]))
    && (forall i, j :: 0 <= i < j < |events| ==> TimeOf(events[i]) <= TimeOf(events[j]))
  }

  ghost predicate AllAllowed(events: seq<Event>, model: W.Model) {
    forall i :: 0 <= i < |events| ==> Allowed(events[i], model)
  }

  function Clock(start: nat, events: seq<Event>): nat {
    if events == [] then start else TimeOf(events[|events| - 1])
  }

  lemma {:induction false} RunInv(w: World, start: nat, events: seq<Event>, model: W.Model)
    requires Inv(w, start) && Timed(start, events) && AllAllowed(events, model)
    ensures Inv(Replay(w, events), Clock(start, events))
  {
    if events != [] {
      var front, e := events[..|events| - 1], events[|events| - 1];
      RunInv(w, start, front, model);
      InvLater(Replay(w, front), Clock(start, front), TimeOf(e));
      StepInv(Replay(w, front), e, model);
    }
  }

  /** A first submission while a version is in force locks exactly that version, the last published one. */
  lemma SubmissionLocks(w: World, clock: nat, id: nat, owner: nat, user: W.UserId, now: nat)
    requires Inv(w, clock) && clock <= now && id in w.dossiers
    requires w.dossiers[id].statut == W.Brouillon && w.dossiers[id].owner == owner
    requires EffectiveRule(w.programmes, w.dossiers[id].programme, now).Some?
    ensures var d := Next(w, DossierWritten(id, W.SubmitOwned(owner, user), now)).dossiers[id];
            d.statut == W.Soumis && d.regle == Some(W.RuleVersion(d.programme, P.Published(w.programmes[d.programme])))
  {
    EffectiveIsPublished(w.programmes, w.dossiers[id].programme, clock, now);
  }

  /** The dossier is still locked to the same version, which still asks for the same documents. */
  predicate SameChecklist(w: World, w': World, id: nat) {
    && id in w.dossiers && id in w'.dossiers
    && w.dossiers[id].regle.Some?
    && w'.dossiers[id].regle == w.dossiers[id].regle
    && w'.dossiers[id].programme == w.dossiers[id].programme
    && DocumentsOf(w'.programmes, w.dossiers[id].regle.value) == DocumentsOf(w.programmes, w.dossiers[id].regle.value)
  }

  lemma ProgrammeStepKeepsDocuments(programmes: R.Tables, id: nat, e: P.Event, v: W.RuleVersion)
    requires v.programme in programmes && P.Inv(programmes[v.programme], e.now)
    requires 1 <= v.number <= P.Published(programmes[v.programme])
    ensures DocumentsOf(R.Commit(programmes, id, e), v) == DocumentsOf(programmes, v)
  {
    if id == v.programme {
      PublishedDocumentsStay(programmes[id], e, v.number);
    }
  }

  lemma WriteKeepsChecklist(w: World, id: nat, write: W.Write, now: nat, model: W.Model)
    requires Inv(w, now) && W.Issuable(write, model) && ProgrammeExists(w.programmes, write)
    requires id in w.dossiers && w.dossiers[id].regle.Some?
    ensures var d' := W.Written(w.dossiers[id], write, EffectiveRule(w.programmes, w.dossiers[id].programme, now));
            SameChecklist(w, w.(dossiers := w.dossiers[id := d']), id)
  {
    WriteKeepsLock(w.programmes, w.dossiers[id], write, now, model);
  }

  lemma CreationKeepsChecklist(w: World, e: Event, id: nat)
    requires e.ProgrammeCreated? || e.DossierCreated? || (e.DossierWritten? && e.id != id)
    requires id in w.dossiers && w.dossiers[id].regle.Some?
    requires w.dossiers[id].regle.value.programme in w.programmes
    ensures SameChecklist(w, Next(w, e), id)
  {
  }

  lemma StepKeepsChecklist(w: World, e: Event, id: nat, model: W.Model)
    requires Inv(w, TimeOf(e)) && Allowed(e, model)
    requires id in w.dossiers && w.dossiers[id].regle.Some?
    ensures SameChecklist(w, Next(w, e), id)
  {
    assert Locked(w.programmes, w.dossiers[id]);
    if e.ProgrammeChanged? {
      ProgrammeStepKeepsDocuments(w.programmes, e.id, e.event, w.dossiers[id].regle.value);
    } else if e.DossierWritten? && e.id == id {
      if Next(w, e) != w {
        WriteKeepsChecklist(w, id, e.write, e.now, model);
      }
    } else {
      CreationKeepsChecklist(w, e, id);
    }
  }

  lemma {:induction false} RunKeepsChecklist(w: World, start: nat, events: seq<Event>, i: nat, id: nat, model: W.Model)
    requires Inv(w, start) && Timed(start, events) && AllAllowed(events, model)
    requires i <= |events| && id in Replay(w, events[..i]).dossiers && Replay(w, events[..i]).dossiers[id].regle.Some?
    ensures SameChecklist(Replay(w, events[..i]), Replay(w, events), id)
  {
    if i == |events| {
      assert events[..i] == events;
    } else {
      var front, e := events[..|events| - 1], events[|events| - 1];
      assert front[..i] == events[..i];
      RunKeepsChecklist(w, start, front, i, id, model);
      RunInv(w, start, front, model);
      InvLater(Replay(w, front), Clock(start, front), TimeOf(e));
      StepKeepsChecklist(Replay(w, front), e, id, model);
    }
  }

  /** The list that judges: the locked version's, the last published one's in force, or the programme's own. */
  function JudgingDocuments(p: P.Programme, d: W.Dossier, now: nat): seq<P.Document>
    requires d.regle.Some? ==> 1 <= d.regle.value.number <= |p.versions|
  {
    var n := P.Published(p);
    if d.regle.Some? then p.versions[d.regle.value.number - 1].content.documents
    else if n > 0 && p.versions[n - 1].effectiveFrom <= now then p.versions[n - 1].content.documents
    else p.requis
  }

  lemma LockedJudges(w: World, clock: nat, d: W.Dossier, now: nat)
    requires Locked(w.programmes, d) && P.Inv(w.programmes[d.programme], clock) && d.regle.Some?
    ensures MandatoryDocuments(w, d, now) == Mandatory(JudgingDocuments(w.programmes[d.programme], d, now))
  {
    P.FindByPosition(w.programmes[d.programme], clock, d.regle.value.number);
  }

  lemma EffectiveJudges(w: World, clock: nat, d: W.Dossier, now: nat)
    requires d.programme in w.programmes && P.Inv(w.programmes[d.programme], clock) && clock <= now && d.regle.None?
    ensures MandatoryDocuments(w, d, now) == Mandatory(JudgingDocuments(w.programmes[d.programme], d, now))
  {
    EffectiveIsPublished(w.programmes, d.programme, clock, now);
    P.FindByPosition(w.programmes[d.programme], clock, P.Published(w.programmes[d.programme]));
  }

  /** A dossier is asked for exactly what the list it is judged by marks mandatory. */
  lemma AskedByTheVersion(w: World, clock: nat, id: nat, now: nat)
    requires Inv(w, clock) && clock <= now && id in w.dossiers
    ensures var d := w.dossiers[id];
            var p := w.programmes[d.programme];
            && (d.regle.Some? ==> 1 <= d.regle.value.number <= |p.versions|)
            && forall document: P.Document ::
                 document in MandatoryDocuments(w, d, now) <==>
                 document in JudgingDocuments(p, d, now) && document.obligatoire
  {
    var d := w.dossiers[id];
    assert Locked(w.programmes, d);
    if d.regle.Some? {
      LockedJudges(w, clock, d, now);
    } else {
      EffectiveJudges(w, clock, d, now);
    }
    MandatoryAreTheObligatory(JudgingDocuments(w.programmes[d.programme], d, now));
  }

  /**
   Once locked, a dossier is judged by the same version of its own programme, with the same mandatory
   documents, for the rest of any run and at whatever time the checklist is read.
   */
  lemma LockedChecklist(w: World, start: nat, events: seq<Event>, i: nat, id: nat, t1: nat, t2: nat, model: W.Model)
    requires Inv(w, start) && Timed(start, events) && AllAllowed(events, model)
    requires i <= |events| && id in Replay(w, events[..i]).dossiers && Replay(w, events[..i]).dossiers[id].regle.Some?
    ensures id in Replay(w, events).dossiers
    ensures var (w1, w2) := (Replay(w, events[..i]), Replay(w, events));
            var (d1, d2) := (w1.dossiers[id], w2.dossiers[id]);
            && JudgedBy(w2, d2, t2) == JudgedBy(w1, d1, t1) == d1.regle
            && d1.regle.value.programme == d2.programme
            && MandatoryDocuments(w2, d2, t2) == MandatoryDocuments(w1, d1, t1)
  {
    RunKeepsChecklist(w, start, events, i, id, model);
    RunInv(w, start, events, model);
    assert Locked(Replay(w, events).programmes, Replay(w, events).dossiers[id]);
  }

  function OnProgramme(id: nat, events: seq<P.Event>): (r: seq<Event>)
    ensures |r| == |events|
  {
    seq(|events|, i requires 0 <= i < |events| => ProgrammeChanged(id, events[i]))
  }

  lemma {:induction false} ReplayOnProgramme(w: World, id: nat, events: seq<P.Event>)
    requires id in w.programmes
    ensures Replay(w, OnProgramme(id, events))
            == w.(programmes := w.programmes[id := P.Replay(w.programmes[id], events)])
  {
    if events == [] {
      assert w.programmes[id := w.programmes[id]] == w.programmes;
    } else {
      var front := events[..|events| - 1];
      assert OnProgramme(id, events)[..|front|] == OnProgramme(id, front);
      ReplayOnProgramme(w, id, front);
    }
  }

  /** After these events the dossier is asked, at time `t`, for the documents `documents`. */
  predicate AskedFor(w: World, id: nat, events: seq<Event>, t: nat, documents: seq<P.Document>) {
    && id in Replay(w, events).dossiers
    && MandatoryDocuments(Replay(w, events), Replay(w, events).dossiers[id], t) == documents
  }

  /** Whatever happens from `start` on, the dossier is asked for the mandatory documents of `start`. */
  ghost predicate FixedForever(w: World, start: nat, id: nat, model: W.Model)
    requires id in w.dossiers
  {
    forall events: seq<Event>, t: nat ::
      Timed(start, events) && AllAllowed(events, model) && Clock(start, events) <= t ==>
        AskedFor(w, id, events, t, MandatoryDocuments(w, w.dossiers[id], start))
  }

  lemma RepublishedChecklist(w: World, d: W.Dossier, clock: nat, documents: seq<P.Document>)
    requires d.regle.None? && d.programme in w.programmes && P.Inv(w.programmes[d.programme], clock)
    requires var p := w.programmes[d.programme];
             P.Published(p) > p.baseline && p.versions[P.Published(p) - 1].content.documents == documents
    ensures MandatoryDocuments(w, d, clock) == Mandatory(documents)
  {
    EffectiveIsPublished(w.programmes, d.programme, clock, clock);
    P.FindByPosition(w.programmes[d.programme], clock, P.Published(w.programmes[d.programme]));
  }

  lemma OnProgrammeTimed(id: nat, start: nat, events: seq<P.Event>, model: W.Model)
    requires P.Timed(start, events)
    ensures Timed(start, OnProgramme(id, events)) && AllAllowed(OnProgramme(id, events), model)
    ensures Clock(start, OnProgramme(id, events)) == P.Clock(start, events)
  {
  }

  /** Events that publish a version for the dossier's programme change what an unlocked dossier is asked for. */
  lemma PublicationAsks(w: World, start: nat, id: nat, at: nat, documents: seq<P.Document>, changes: seq<P.Event>)
    requires id in w.dossiers && w.dossiers[id].regle.None? && w.dossiers[id].programme in w.programmes
    requires P.Publishes(w.programmes[w.dossiers[id].programme], start, at, documents, changes)
    ensures AskedFor(w, id, OnProgramme(w.dossiers[id].programme, changes), at, Mandatory(documents))
  {
    var programme := w.dossiers[id].programme;
    ReplayOnProgramme(w, programme, changes);
    var q := P.Replay(w.programmes[programme], changes);
    RepublishedChecklist(w.(programmes := w.programmes[programme := q]), w.dossiers[id], at, documents);
  }

  lemma RepublishChangesChecklist(w: World, start: nat, id: nat, documents: seq<P.Document>, model: W.Model)
    returns (events: seq<Event>, at: nat)
    requires Inv(w, start) && id in w.dossiers && w.dossiers[id].regle.None? && P.DistinctDocuments(documents)
    ensures Timed(start, events) && AllAllowed(events, model) && Clock(start, events) == at
    ensures AskedFor(w, id, events, at, Mandatory(documents))
  {
    assert Locked(w.programmes, w.dossiers[id]);
    var programme := w.dossiers[id].programme;
    at := P.PublishTime(w.programmes[programme], start);
    var changes := P.Republish(w.programmes[programme], start, documents);
    events := OnProgramme(programme, changes);
    OnProgrammeTimed(programme, start, changes, model);
    PublicationAsks(w, start, id, at, documents, changes);
  }

  /** A dossier submitted while no version was in force can still see its checklist change. */
  lemma UnlockedChecklistCanChange(w: World, start: nat, id: nat, model: W.Model)
    requires Inv(w, start) && id in w.dossiers && w.dossiers[id].regle.None?
    ensures !FixedForever(w, start, id, model)
  {
    var before := MandatoryDocuments(w, w.dossiers[id], start);
    var documents := if before == [] then [P.Document("RCCM", "RCCM", "RCCM", true, None, 0)] else [];
    assert Mandatory(documents) != before;
    var events, at := RepublishChangesChecklist(w, start, id, documents, model);
    assert !AskedFor(w, id, events, at, before);
  }

  /** A dossier's checklist is fixed in every future exactly when a version is locked on it. */
  lemma ChecklistFixedIffLocked(w: World, start: nat, id: nat, model: W.Model)
    requires Inv(w, start) && id in w.dossiers
    ensures FixedForever(w, start, id, model) <==> w.dossiers[id].regle.Some?
  {
    if w.dossiers[id].regle.Some? {
      var before := MandatoryDocuments(w, w.dossiers[id], start);
      forall events: seq<Event>, t: nat | Timed(start, events) && AllAllowed(events, model) && Clock(start, events) <= t
        ensures AskedFor(w, id, events, t, before)
      {
        assert events[..0] == [];
        LockedChecklist(w, start, events, 0, id, start, t, model);
      }
    } else {
      UnlockedChecklistCanChange(w, start, id, model);
    }
  }

  /** No dossier refers to a draft, so the trigger protecting referenced versions never refuses an edit. */
  lemma DraftsAreUnreferenced(w: World, clock: nat, id: nat)
    requires Inv(w, clock) && id in w.dossiers && w.dossiers[id].regle.Some?
    ensures var v := w.dossiers[id].regle.value;
            var i := P.Find(w.programmes[v.programme].versions, v.number);
            i.Some? && w.programmes[v.programme].versions[i.value].statut != P.Brouillon
  {
    var v := w.dossiers[id].regle.value;
    P.FindByPosition(w.programmes[v.programme], clock, v.number);
  }
}
