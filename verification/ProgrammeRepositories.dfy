/**
 The two repositories that write programme rules, statement by statement over the tables of the
 programmes, each proved to do what `Programmes.Step` says. A failing transaction is rolled back.
 */
module ProgrammeRepositories {
  import opened Common
  import opened Programmes

  type Tables = map<nat, Programme>

  /** The tables after the transaction. */
  function Commit(t: Tables, id: nat, e: Event): Tables {
    if id in t && Step(t[id], e).Ok? then t[id := Step(t[id], e).value] else t
  }

  /** What the caller is told: no error, or why the transaction was refused. */
  function Refusal(t: Tables, id: nat, e: Event): Option<Error> {
    if id in t then
      match Step(t[id], e)
      case Ok(_) => None
      case Err(error) => Some(error)
    else if (e.action.UpdateDraft? || e.action.ProposeRules?) && !PatchOk(e.action.patch) then Some(BadRequest)
    else Some(NotFound)
  }

  /** What a faulty request is told about a programme that does not exist. */
  predicate ExplainsMissing(e: Event, error: Error) {
    match error
    case NotFound => true
    case BadRequest =>
      || (e.action.SetStatut? && e.action.statut == ProgrammeActive)
      || ((e.action.UpdateDraft? || e.action.ProposeRules?) && !PatchFits(NO_RULE, e.action.patch))
    case _ => false
  }

  /** A transaction: when it is accepted, what it then does to its programme, and what a refusal says. */
  predicate Performs(before: Tables, after: Tables, id: nat, e: Event, refusal: Option<Error>) {
    && (refusal.None? <==> id in before && Admissible(before[id], e))
    && match refusal
       case None => id in after && after == before[id := after[id]] && Lands(before[id], e, after[id])
       case Some(error) =>
         after == before && if id in before then Explains(before[id], e, error) else ExplainsMissing(e, error)
  }

  ghost predicate AllInv(t: Tables, clock: nat) {
    forall id :: id in t ==> Inv(t[id], clock)
  }

  /** Every transaction of either repository keeps the invariant of every programme. */
  lemma CommitInv(t: Tables, id: nat, e: Event)
    requires AllInv(t, e.now)
    ensures AllInv(Commit(t, id, e), e.now)
  {
    if id in t {
      StepInv(t[id], e);
    }
  }

  /** Programmes stay, and none loses a published version. */
  predicate Grows(before: Tables, after: Tables) {
    forall id :: id in before ==> id in after && Published(before[id]) <= Published(after[id])
  }

  /** What a transaction on a known programme writes and answers, and that its rows are sound. */
  lemma Finishes(t: Tables, id: nat, e: Event, r: Result<Programme, Error>)
    requires id in t && Inv(t[id], e.now) && r == Step(t[id], e)
    ensures Commit(t, id, e) == if r.Ok? then t[id := r.value] else t
    ensures Refusal(t, id, e) == if r.Ok? then None else Some(r.error)
    ensures r.Ok? ==> Inv(r.value, e.now) && Published(t[id]) <= Published(r.value)
  {
    StepInv(t[id], e);
  }

  lemma PutKeeps(t: Tables, id: nat, p: Programme, clock: nat)
    requires AllInv(t, clock) && Inv(p, clock)
    ensures AllInv(t[id := p], clock)
  {
  }

  lemma PutGrows(t: Tables, id: nat, p: Programme)
    requires id in t && Published(t[id]) <= Published(p)
    ensures Grows(t, t[id := p])
  {
  }

  lemma CommitPerforms(t: Tables, id: nat, e: Event)
    requires AllInv(t, e.now)
    ensures Performs(t, Commit(t, id, e), id, e, Refusal(t, id, e))
  {
    if id in t {
      AcceptedIffAdmissible(t[id], e);
      if Step(t[id], e).Ok? {
        AcceptedLands(t[id], e);
      } else {
        RefusalExplains(t[id], e);
      }
    }
  }

  lemma AllInvLater(t: Tables, before: nat, now: nat)
    requires AllInv(t, before) && before <= now
    ensures AllInv(t, now)
  {
    forall id | id in t ensures Inv(t[id], now) {
      InvLater(t[id], before, now);
    }
  }

  /** A faulty patch is refused before anything is looked up. */
  lemma FaultyPatch(t: Tables, id: nat, e: Event)
    requires (e.action.UpdateDraft? || e.action.ProposeRules?) && !PatchOk(e.action.patch)
    ensures Commit(t, id, e) == t && Refusal(t, id, e) == Some(BadRequest)
  {
  }

  lemma UnknownProgramme(t: Tables, id: nat, e: Event)
    requires id !in t && e.action.SetStatut?
    ensures Commit(t, id, e) == t && Refusal(t, id, e) == Some(NotFound)
  {
  }

  /** No two documents share a code or a type. */
  method ValidateDocuments(documents: seq<Document>) returns (ok: bool)
    ensures ok <==> DistinctDocuments(documents)
  {
    var codes: set<string> := {};
    var seenTypes: set<string> := {};
    for i := 0 to |documents|
      invariant codes == set j | 0 <= j < i :: documents[j].code
      invariant seenTypes == set j | 0 <= j < i :: documents[j].typeDocument
      invariant DistinctDocuments(documents[..i])
    {
      var d := documents[i];
      if d.code in codes || d.typeDocument in seenTypes {
        return false;
      }
      codes, seenTypes := codes + {d.code}, seenTypes + {d.typeDocument};
    }
    assert documents[..|documents|] == documents;
    return true;
  }

  /** The columns of a programme that creation checks besides its rules. */
  datatype Header = Header(code: string, dateDebut: Option<int>, dateFin: Option<int>)

  predicate DatesOk(h: Header) {
    h.dateDebut.Some? && h.dateFin.Some? ==> h.dateDebut.value <= h.dateFin.value
  }

  /** `codes` is the unique column of the programmes; `regions` and `secteurs` are the known identifiers. */
  class Database {
    var programmes: Tables
    var codes: map<nat, string>
    var nextId: nat
    const regions: set<nat>
    const secteurs: set<nat>
    ghost var clock: nat

    /** What every run of both repositories keeps, for every programme. */
    ghost predicate Valid()
      reads this
    {
      && (forall id :: id in codes ==> id in programmes)
      && (forall id :: id in programmes ==> id < nextId)
      && AllInv(programmes, clock)
      && (forall i, j :: i in codes && j in codes && codes[i] == codes[j] ==> i == j)
    }

    /** The tables as the migrations leave them: programmes may have a version 1 that nobody approved, or none. */
    constructor (
      migrated: Tables, codes: map<nat, string>, nextId: nat, regions: set<nat>, secteurs: set<nat>, ghost now: nat)
      requires AllInv(migrated, now) && (forall id :: id in migrated ==> id < nextId)
      requires forall id :: id in codes ==> id in migrated
      requires forall i, j :: i in codes && j in codes && codes[i] == codes[j] ==> i == j
      ensures Valid() && programmes == migrated && this.codes == codes && clock == now
      ensures this.regions == regions && this.secteurs == secteurs
    {
      this.programmes, this.codes, this.nextId, this.clock := migrated, codes, nextId, now;
      this.regions, this.secteurs := regions, secteurs;
    }

    ghost method Tick(now: nat)
      requires Valid() && clock <= now
      modifies this`clock
      ensures Valid() && clock == now
    {
      AllInvLater(programmes, clock, now);
      clock := now;
    }

    method Put(id: nat, p: Programme)
      requires Valid() && id in programmes && Inv(p, clock)
      modifies this`programmes
      ensures Valid() && programmes == old(programmes)[id := p]
    {
      PutKeeps(programmes, id, p, clock);
      programmes := programmes[id := p];
    }

    /** Commits the rows that transaction `e` leaves for its programme, or rolls it back. */
    method Finish(id: nat, r: Result<Programme, Error>, ghost e: Event) returns (refusal: Option<Error>)
      requires Valid() && clock == e.now && id in programmes && r == Step(programmes[id], e)
      modifies this`programmes
      ensures Valid() && programmes == Commit(old(programmes), id, e) && refusal == Refusal(old(programmes), id, e)
      ensures Grows(old(programmes), programmes)
    {
      Finishes(programmes, id, e, r);
      if r.Err? {
        return Some(r.error);
      }
      PutGrows(programmes, id, r.value);
      Put(id, r.value);
      return None;
    }

    predicate CodeTaken(code: string)
      reads this
    {
      exists id :: id in codes && codes[id] == code
    }

    method Insert(p: Programme, code: string) returns (id: nat)
      requires Valid() && Inv(p, clock) && !CodeTaken(code)
      modifies this`programmes, this`codes, this`nextId
      ensures Valid() && id !in old(programmes)
      ensures programmes == old(programmes)[id := p] && codes == old(codes)[id := code]
    {
      id := nextId;
      programmes, codes, nextId := programmes[id := p], codes[id := code], nextId + 1;
    }
  }

  /** What creation answers: the request's own faults first, then the unique code. */
  function Creation(
    taken: bool, actor: UserId, now: nat, h: Header, content: Content, asProposal: bool, scopeKnown: bool)
    : Result<Programme, Error>
  {
    if !DatesOk(h) || !scopeKnown || Create(actor, now, content, asProposal).Err? then Err(BadRequest)
    else if taken then Err(Conflict)
    else Create(actor, now, content, asProposal)
  }

  predicate InOrder(h: Header) {
    match (h.dateDebut, h.dateFin)
    case (Some(first), Some(last)) => first <= last
    case _ => true
  }

  /** A creation is accepted exactly when dates, scope, amounts and documents are sound and the code is free. */
  lemma CreationMeans(
    taken: bool, actor: UserId, now: nat, h: Header, content: Content, asProposal: bool, scopeKnown: bool)
    ensures var r := Creation(taken, actor, now, h, content, asProposal, scopeKnown);
            var sound := InOrder(h) && scopeKnown && ValidContent(content);
            && (r.Ok? <==> sound && !taken)
            && (r.Err? ==> r.error == if sound then Conflict else BadRequest)
            && (r.Ok? ==> IsNew(r.value, actor, content, asProposal))
  {
    CreatesTheDraft(actor, now, content, asProposal);
  }

  // ---- The rows a transaction leaves, statement by statement ------------------------------------

  /** Archives the ACTIVE rows other than `number`; the table refuses an empty validity interval. */
  method ArchiveActive(versions: seq<Version>, number: nat, now: nat) returns (refused: bool, rows: seq<Version>)
    ensures refused <==> EmptyInterval(versions, number, now)
    ensures !refused ==> rows == Archived(versions, number, now)
  {
    rows := versions;
    for i := 0 to |versions|
      invariant |rows| == |versions| && rows[i..] == versions[i..]
      invariant forall j :: 0 <= j < i ==> rows[j] == Archived(versions, number, now)[j]
      invariant forall j :: 0 <= j < i && versions[j].statut == Active && versions[j].number != number ==>
                  versions[j].effectiveFrom < now
    {
      var v := rows[i];
      assert v == versions[i];
      if v.statut == Active && v.number != number {
        if v.effectiveFrom >= now {
          return true, rows;
        }
        rows := rows[i := v.(statut := Archivee, effectiveTo := Some(now))];
      }
    }
    return false, rows;
  }

  /** A programme in BROUILLON with its first draft; the author is recorded on proposals. */
  method NewRows(actor: UserId, now: nat, h: Header, content: Content, asProposal: bool)
    returns (r: Result<Programme, Error>)
    ensures r == if DatesOk(h) then Create(actor, now, content, asProposal) else Err(BadRequest)
  {
    var distinct := ValidateDocuments(content.documents);
    if !RangeOk(content.rule.montantMin, content.rule.montantMax) || !distinct || !DatesOk(h) {
      return Err(BadRequest);
    }
    var draft := NewDraft(1, content, actor, now);
    var createdBy := if asProposal then Some(actor) else None;
    return Ok(Programme(ProgrammeBrouillon, createdBy, content.rule, [], [draft], 0));
  }

  /** The next draft, copied from the active version or the latest one. */
  method DraftRows(p: Programme, actor: UserId, now: nat) returns (r: Result<Programme, Error>)
    ensures r == DoCreateDraft(p, actor, now)
  {
    if HasDraft(p.versions) {
      return Err(Conflict);
    }
    var source := Source(p.versions);
    var nextVersion := MaxNumber(p.versions) + 1;
    var rule, documents := p.rule, p.requis;
    if source.Some? {
      rule, documents := source.value.content.rule, source.value.content.documents;
    }
    var draft := NewDraft(nextVersion, Content(rule, documents), actor, now);
    return Ok(p.(versions := p.versions + [draft]));
  }

  /** The edit of a draft: submission and approval are cleared. */
  method EditedRows(p: Programme, actor: UserId, number: nat, patch: Patch) returns (r: Result<Programme, Error>)
    requires PatchOk(patch)
    ensures r == DoUpdateDraft(p, actor, number, patch)
  {
    var row := Find(p.versions, number);
    if row.None? {
      return Err(NotFound);
    }
    var current := p.versions[row.value];
    if current.statut != Brouillon {
      return Err(Conflict);
    }
    var next := Patched(current.content.rule, patch);
    if !RangeOk(next.montantMin, next.montantMax) {
      return Err(BadRequest);
    }
    current := current.(content := current.content.(rule := next), preparedBy := Some(actor));
    current := current.(submitted := None, approved := None);
    if patch.documents.Some? {
      current := current.(content := current.content.(documents := patch.documents.value));
    }
    return Ok(p.(versions := p.versions[row.value := current]));
  }

  method SubmittedRows(p: Programme, actor: UserId, number: nat, now: nat) returns (r: Result<Programme, Error>)
    ensures r == DoSubmit(p, actor, number, now)
  {
    var row := Find(p.versions, number);
    if row.None? {
      return Err(NotFound);
    }
    var current := p.versions[row.value];
    if current.statut != Brouillon {
      return Err(Conflict);
    }
    current := current.(submitted := Some(Stamp(actor, now)), approved := None);
    return Ok(p.(versions := p.versions[row.value := current]));
  }

  method ApprovedRows(p: Programme, actor: UserId, number: nat, now: nat) returns (r: Result<Programme, Error>)
    ensures r == DoApprove(p, actor, number, now)
  {
    var row := Find(p.versions, number);
    if row.None? {
      return Err(NotFound);
    }
    var current := p.versions[row.value];
    if current.statut != Brouillon || current.submitted.None? {
      return Err(Conflict);
    }
    if (current.preparedBy.Some? && current.preparedBy.value == actor) || current.submitted.value.actor == actor {
      return Err(Conflict);
    }
    current := current.(approved := Some(Stamp(actor, now)));
    return Ok(p.(versions := p.versions[row.value := current]));
  }

  /** Archives the active rows one by one, activates the target and copies its rules on the programme. */
  method ActivatedRows(p: Programme, number: nat, now: nat) returns (r: Result<Programme, Error>)
    ensures r == DoActivate(p, number, now)
  {
    var row := Find(p.versions, number);
    if row.None? {
      return Err(NotFound);
    }
    var target := p.versions[row.value];
    if target.statut != Brouillon || target.approved.None? {
      return Err(Conflict);
    }
    var refused, rows := ArchiveActive(p.versions, number, now);
    if refused {
      return Err(ConstraintViolated);
    }
    rows := rows[row.value := target.(statut := Active, effectiveFrom := now, effectiveTo := None)];
    var next := p.(versions := rows, statut := ProgrammeActive, rule := target.content.rule);
    return Ok(next.(requis := target.content.documents));
  }

  /** The proposer's edit: approvals are left alone. */
  method ProposedRows(p: Programme, actor: UserId, number: nat, patch: Patch) returns (r: Result<Programme, Error>)
    requires PatchOk(patch)
    ensures r == DoProposeRules(p, actor, number, patch)
  {
    var row := Find(p.versions, number);
    if row.None? || p.createdBy != Some(actor) || p.statut != ProgrammeBrouillon {
      return Err(NotFound);
    }
    var current := p.versions[row.value];
    if current.statut != Brouillon || current.submitted.Some? {
      return Err(Conflict);
    }
    var next := Patched(current.content.rule, patch);
    if !RangeOk(next.montantMin, next.montantMax) {
      return Err(BadRequest);
    }
    current := current.(content := current.content.(rule := next), preparedBy := Some(actor));
    if patch.documents.Some? {
      current := current.(content := current.content.(documents := patch.documents.value));
    }
    return Ok(p.(versions := p.versions[row.value := current]));
  }

  method ProposalSubmittedRows(p: Programme, actor: UserId, number: nat, now: nat) returns (r: Result<Programme, Error>)
    ensures r == DoProposeSubmit(p, actor, number, now)
  {
    var row := Find(p.versions, number);
    if row.None? || p.createdBy != Some(actor) || p.statut != ProgrammeBrouillon {
      return Err(NotFound);
    }
    var current := p.versions[row.value];
    if current.statut != Brouillon || current.submitted.Some? {
      return Err(Conflict);
    }
    current := current.(submitted := Some(Stamp(actor, now)), approved := None);
    return Ok(p.(versions := p.versions[row.value := current]));
  }

  /** A programme is only made active by activating a version. */
  method StatutRows(p: Programme, statut: ProgrammeStatut) returns (r: Result<Programme, Error>)
    ensures r == if statut == ProgrammeActive then Err(BadRequest) else Ok(p.(statut := statut))
  {
    if statut == ProgrammeActive {
      return Err(BadRequest);
    }
    return Ok(p.(statut := statut));
  }

  /** Direction's repository. */
  class ProgramsRepository {
    const db: Database

    constructor (db: Database)
      ensures this.db == db
    {
      this.db := db;
    }

    method CreateProgram(actor: UserId, now: nat, header: Header, content: Content) returns (r: Result<nat, Error>)
      requires db.Valid() && db.clock <= now
      modifies db
      ensures db.Valid() && db.clock == now && Grows(old(db.programmes), db.programmes)
      ensures match Creation(old(db.CodeTaken(header.code)), actor, now, header, content, false, true)
              case Err(e) => r == Err(e) && db.programmes == old(db.programmes) && db.codes == old(db.codes)
              case Ok(p) => r.Ok? && r.value !in old(db.programmes) && db.programmes == old(db.programmes)[r.value := p]
                            && db.codes == old(db.codes)[r.value := header.code]
    {
      db.Tick(now);
      var p := NewRows(actor, now, header, content, false);
      if p.Err? {
        return Err(p.error);
      }
      if db.CodeTaken(header.code) {
        return Err(Conflict);
      }
      CreateInv(actor, now, content, false);
      var newId := db.Insert(p.value, header.code);
      return Ok(newId);
    }

    method CreateDraftVersion(actor: UserId, now: nat, id: nat) returns (refusal: Option<Error>)
      requires db.Valid() && db.clock <= now
      modifies db`programmes, db`clock
      ensures db.Valid() && db.clock == now && Grows(old(db.programmes), db.programmes)
      ensures db.programmes == Commit(old(db.programmes), id, Event(actor, now, CreateDraft))
      ensures refusal == Refusal(old(db.programmes), id, Event(actor, now, CreateDraft))
      ensures Performs(old(db.programmes), db.programmes, id, Event(actor, now, CreateDraft), refusal)
    {
      db.Tick(now);
      CommitPerforms(db.programmes, id, Event(actor, now, CreateDraft));
      if id !in db.programmes {
        return Some(NotFound);
      }
      var r := DraftRows(db.programmes[id], actor, now);
      refusal := db.Finish(id, r, Event(actor, now, CreateDraft));
    }

    method UpdateDraftVersion(actor: UserId, now: nat, id: nat, number: nat, patch: Patch)
      returns (refusal: Option<Error>)
      requires db.Valid() && db.clock <= now
      modifies db`programmes, db`clock
      ensures db.Valid() && db.clock == now && Grows(old(db.programmes), db.programmes)
      ensures db.programmes == Commit(old(db.programmes), id, Event(actor, now, UpdateDraft(number, patch)))
      ensures refusal == Refusal(old(db.programmes), id, Event(actor, now, UpdateDraft(number, patch)))
      ensures Performs(old(db.programmes), db.programmes, id, Event(actor, now, UpdateDraft(number, patch)), refusal)
    {
      db.Tick(now);
      CommitPerforms(db.programmes, id, Event(actor, now, UpdateDraft(number, patch)));
      var distinct := ValidateDocuments(patch.documents.GetOr([]));
      if !RangeOk(patch.montantMin.GetOr(None), patch.montantMax.GetOr(None)) || !distinct {
        FaultyPatch(db.programmes, id, Event(actor, now, UpdateDraft(number, patch)));
        return Some(BadRequest);
      }
      if id !in db.programmes {
        return Some(NotFound);
      }
      var r := EditedRows(db.programmes[id], actor, number, patch);
      refusal := db.Finish(id, r, Event(actor, now, UpdateDraft(number, patch)));
    }

    method SubmitVersion(actor: UserId, now: nat, id: nat, number: nat) returns (refusal: Option<Error>)
      requires db.Valid() && db.clock <= now
      modifies db`programmes, db`clock
      ensures db.Valid() && db.clock == now && Grows(old(db.programmes), db.programmes)
      ensures db.programmes == Commit(old(db.programmes), id, Event(actor, now, Submit(number)))
      ensures refusal == Refusal(old(db.programmes), id, Event(actor, now, Submit(number)))
      ensures Performs(old(db.programmes), db.programmes, id, Event(actor, now, Submit(number)), refusal)
    {
      db.Tick(now);
      CommitPerforms(db.programmes, id, Event(actor, now, Submit(number)));
      if id !in db.programmes {
        return Some(NotFound);
      }
      var r := SubmittedRows(db.programmes[id], actor, number, now);
      refusal := db.Finish(id, r, Event(actor, now, Submit(number)));
    }

    method ApproveVersion(actor: UserId, now: nat, id: nat, number: nat) returns (refusal: Option<Error>)
      requires db.Valid() && db.clock <= now
      modifies db`programmes, db`clock
      ensures db.Valid() && db.clock == now && Grows(old(db.programmes), db.programmes)
      ensures db.programmes == Commit(old(db.programmes), id, Event(actor, now, Approve(number)))
      ensures refusal == Refusal(old(db.programmes), id, Event(actor, now, Approve(number)))
      ensures Performs(old(db.programmes), db.programmes, id, Event(actor, now, Approve(number)), refusal)
    {
      db.Tick(now);
      CommitPerforms(db.programmes, id, Event(actor, now, Approve(number)));
      if id !in db.programmes {
        return Some(NotFound);
      }
      var r := ApprovedRows(db.programmes[id], actor, number, now);
      refusal := db.Finish(id, r, Event(actor, now, Approve(number)));
    }

    method ActivateVersion(actor: UserId, now: nat, id: nat, number: nat) returns (refusal: Option<Error>)
      requires db.Valid() && db.clock <= now
      modifies db`programmes, db`clock
      ensures db.Valid() && db.clock == now && Grows(old(db.programmes), db.programmes)
      ensures db.programmes == Commit(old(db.programmes), id, Event(actor, now, Activate(number)))
      ensures refusal == Refusal(old(db.programmes), id, Event(actor, now, Activate(number)))
      ensures Performs(old(db.programmes), db.programmes, id, Event(actor, now, Activate(number)), refusal)
    {
      db.Tick(now);
      CommitPerforms(db.programmes, id, Event(actor, now, Activate(number)));
      if id !in db.programmes {
        return Some(NotFound);
      }
      var r := ActivatedRows(db.programmes[id], number, now);
      refusal := db.Finish(id, r, Event(actor, now, Activate(number)));
    }

    method UpdateProgram(actor: UserId, now: nat, id: nat, statut: ProgrammeStatut) returns (refusal: Option<Error>)
      requires db.Valid() && db.clock <= now
      modifies db`programmes, db`clock
      ensures db.Valid() && db.clock == now && Grows(old(db.programmes), db.programmes)
      ensures db.programmes == Commit(old(db.programmes), id, Event(actor, now, SetStatut(statut)))
      ensures refusal == if statut == ProgrammeActive then Some(BadRequest)
                         else Refusal(old(db.programmes), id, Event(actor, now, SetStatut(statut)))
      ensures Performs(old(db.programmes), db.programmes, id, Event(actor, now, SetStatut(statut)), refusal)
    {
      db.Tick(now);
      ghost var e := Event(actor, now, SetStatut(statut));
      CommitPerforms(db.programmes, id, e);
      if id !in db.programmes {
        UnknownProgramme(db.programmes, id, e);
        return Some(if statut == ProgrammeActive then BadRequest else NotFound);
      }
      var r := StatutRows(db.programmes[id], statut);
      refusal := db.Finish(id, r, e);
    }
  }

  /** The proposers' repository: it sees only the actor's own, still unpublished programmes. */
  class ProgramProposalsRepository {
    const db: Database

    constructor (db: Database)
      ensures this.db == db
    {
      this.db := db;
    }

    method CreateProposal(
      actor: UserId, now: nat, header: Header, regionIds: set<nat>, secteurIds: set<nat>, content: Content)
      returns (r: Result<nat, Error>)
      requires db.Valid() && db.clock <= now
      modifies db
      ensures db.Valid() && db.clock == now && Grows(old(db.programmes), db.programmes)
      ensures match Creation(old(db.CodeTaken(header.code)), actor, now, header, content, true,
                             regionIds <= db.regions && secteurIds <= db.secteurs)
              case Err(e) => r == Err(e) && db.programmes == old(db.programmes) && db.codes == old(db.codes)
              case Ok(p) => r.Ok? && r.value !in old(db.programmes) && db.programmes == old(db.programmes)[r.value := p]
                            && db.codes == old(db.codes)[r.value := header.code]
    {
      db.Tick(now);
      var p := NewRows(actor, now, header, content, true);
      if p.Err? {
        return Err(p.error);
      }
      if !(regionIds <= db.regions && secteurIds <= db.secteurs) {
        return Err(BadRequest);
      }
      if db.CodeTaken(header.code) {
        return Err(Conflict);
      }
      CreateInv(actor, now, content, true);
      var newId := db.Insert(p.value, header.code);
      return Ok(newId);
    }

    method UpdateRules(actor: UserId, now: nat, id: nat, number: nat, patch: Patch) returns (refusal: Option<Error>)
      requires db.Valid() && db.clock <= now
      modifies db`programmes, db`clock
      ensures db.Valid() && db.clock == now && Grows(old(db.programmes), db.programmes)
      ensures db.programmes == Commit(old(db.programmes), id, Event(actor, now, ProposeRules(number, patch)))
      ensures refusal == Refusal(old(db.programmes), id, Event(actor, now, ProposeRules(number, patch)))
      ensures Performs(old(db.programmes), db.programmes, id, Event(actor, now, ProposeRules(number, patch)), refusal)
    {
      db.Tick(now);
      CommitPerforms(db.programmes, id, Event(actor, now, ProposeRules(number, patch)));
      var distinct := ValidateDocuments(patch.documents.GetOr([]));
      if !RangeOk(patch.montantMin.GetOr(None), patch.montantMax.GetOr(None)) || !distinct {
        FaultyPatch(db.programmes, id, Event(actor, now, ProposeRules(number, patch)));
        return Some(BadRequest);
      }
      if id !in db.programmes {
        return Some(NotFound);
      }
      var r := ProposedRows(db.programmes[id], actor, number, patch);
      refusal := db.Finish(id, r, Event(actor, now, ProposeRules(number, patch)));
    }

    method SubmitProposal(actor: UserId, now: nat, id: nat, number: nat) returns (refusal: Option<Error>)
      requires db.Valid() && db.clock <= now
      modifies db`programmes, db`clock
      ensures db.Valid() && db.clock == now && Grows(old(db.programmes), db.programmes)
      ensures db.programmes == Commit(old(db.programmes), id, Event(actor, now, ProposeSubmit(number)))
      ensures refusal == Refusal(old(db.programmes), id, Event(actor, now, ProposeSubmit(number)))
      ensures Performs(old(db.programmes), db.programmes, id, Event(actor, now, ProposeSubmit(number)), refusal)
    {
      db.Tick(now);
      CommitPerforms(db.programmes, id, Event(actor, now, ProposeSubmit(number)));
      if id !in db.programmes {
        return Some(NotFound);
      }
      var r := ProposalSubmittedRows(db.programmes[id], actor, number, now);
      refusal := db.Finish(id, r, Event(actor, now, ProposeSubmit(number)));
    }
  }
}
