/**
 Programme rule versions: the rows of one programme, and what each transaction of the two
 repositories that write them does. A transaction that fails leaves the programme as it was.
 */
module Programmes {
  import opened Common

  type UserId = nat

  datatype Rule = Rule(
    montantMin: Option<nat>, montantMax: Option<nat>, apportMinPct: Option<nat>, ancienneteMinMois: Option<nat>,
    rccmRequis: bool, nifRequis: bool, slaInstructionJours: Option<nat>)

  datatype Document = Document(
    code: string, libelle: string, typeDocument: string, obligatoire: bool, validiteJours: Option<nat>,
    ordreAffichage: nat)

  /** What a version says: its rule values and its document rows. */
  datatype Content = Content(rule: Rule, documents: seq<Document>)

  datatype VersionStatut = Brouillon | Active | Archivee

  datatype Stamp = Stamp(actor: UserId, at: nat)

  datatype Version = Version(
    number: nat, statut: VersionStatut, effectiveFrom: nat, effectiveTo: Option<nat>, content: Content,
    preparedBy: Option<UserId>, submitted: Option<Stamp>, approved: Option<Stamp>)

  datatype ProgrammeStatut = ProgrammeBrouillon | ProgrammeActive | ProgrammeCloture | ProgrammeArchive

  /**
   `rule` and `requis` are the programme's own copy of the rules; `versions` is in insertion order. The first
   `baseline` versions were written by the migrations, without preparer or approval; no statement reads that number.
   */
  datatype Programme = Programme(
    statut: ProgrammeStatut, createdBy: Option<UserId>, rule: Rule, requis: seq<Document>, versions: seq<Version>,
    baseline: nat)

  /** A partial update: an absent field is kept. */
  datatype Patch = Patch(
    montantMin: Option<Option<nat>>, montantMax: Option<Option<nat>>, apportMinPct: Option<Option<nat>>,
    ancienneteMinMois: Option<Option<nat>>, rccmRequis: Option<bool>, nifRequis: Option<bool>,
    slaInstructionJours: Option<Option<nat>>, documents: Option<seq<Document>>)

  datatype Error = BadRequest | NotFound | Conflict | ConstraintViolated

  datatype Action =
    | CreateDraft
    | UpdateDraft(number: nat, patch: Patch)
    | Submit(number: nat)
    | Approve(number: nat)
    | Activate(number: nat)
    | SetStatut(statut: ProgrammeStatut)
    | ProposeRules(number: nat, patch: Patch)
    | ProposeSubmit(number: nat)

  datatype Event = Event(actor: UserId, now: nat, action: Action)

  // ---------------------------------------------------------------------------------------------
  // Validation
  // ---------------------------------------------------------------------------------------------

  predicate RangeOk(min: Option<nat>, max: Option<nat>) {
    min.Some? && max.Some? ==> min.value <= max.value
  }

  predicate DistinctDocuments(documents: seq<Document>) {
    forall i, j :: 0 <= i < j < |documents| ==>
      documents[i].code != documents[j].code && documents[i].typeDocument != documents[j].typeDocument
  }

  predicate PatchOk(patch: Patch) {
    && RangeOk(patch.montantMin.GetOr(None), patch.montantMax.GetOr(None))
    && (patch.documents.Some? ==> DistinctDocuments(patch.documents.value))
  }

  function Patched(rule: Rule, patch: Patch): Rule {
    Rule(patch.montantMin.GetOr(rule.montantMin), patch.montantMax.GetOr(rule.montantMax),
         patch.apportMinPct.GetOr(rule.apportMinPct), patch.ancienneteMinMois.GetOr(rule.ancienneteMinMois),
         patch.rccmRequis.GetOr(rule.rccmRequis), patch.nifRequis.GetOr(rule.nifRequis),
         patch.slaInstructionJours.GetOr(rule.slaInstructionJours))
  }

  // ---------------------------------------------------------------------------------------------
  // Rows
  // ---------------------------------------------------------------------------------------------

  /** Index of the row `WHERE version = number`. */
  function Find(versions: seq<Version>, number: nat): (r: Option<nat>)
    ensures r.Some? ==> r.value < |versions| && versions[r.value].number == number
    ensures r.None? ==> forall i :: 0 <= i < |versions| ==> versions[i].number != number
  {
    if versions == [] then None
    else if versions[|versions| - 1].number == number then Some(|versions| - 1)
    else Find(versions[..|versions| - 1], number)
  }

  predicate HasDraft(versions: seq<Version>) {
    exists i :: 0 <= i < |versions| && versions[i].statut == Brouillon
  }

  function MaxNumber(versions: seq<Version>): nat {
    if versions == [] then 0
    else
      var rest := MaxNumber(versions[..|versions| - 1]);
      if versions[|versions| - 1].number > rest then versions[|versions| - 1].number else rest
  }

  /** `ORDER BY (ACTIVE first), version DESC LIMIT 1`. */
  function Source(versions: seq<Version>): Option<Version> {
    if versions == [] then None
    else
      var rest, last := Source(versions[..|versions| - 1]), versions[|versions| - 1];
      if rest.None? || (last.statut == Active && rest.value.statut != Active)
         || ((last.statut == Active <==> rest.value.statut == Active) && last.number > rest.value.number)
      then Some(last) else rest
  }

  /** The ACTIVE rows other than `number` are archived at `now`. */
  function Archived(versions: seq<Version>, number: nat, now: nat): (r: seq<Version>)
    ensures |r| == |versions|
  {
    seq(|versions|, i requires 0 <= i < |versions| =>
      var v := versions[i];
      if v.statut == Active && v.number != number then v.(statut := Archivee, effectiveTo := Some(now)) else v)
  }

  /** Archiving at `now` would give some row an empty validity interval. */
  predicate EmptyInterval(versions: seq<Version>, number: nat, now: nat) {
    exists j :: 0 <= j < |versions|
                && versions[j].statut == Active && versions[j].number != number && versions[j].effectiveFrom >= now
  }

  // ---------------------------------------------------------------------------------------------
  // Transactions
  // ---------------------------------------------------------------------------------------------

  function NewDraft(number: nat, content: Content, actor: UserId, now: nat): Version {
    Version(number, Brouillon, now, None, content, Some(actor), None, None)
  }

  /** `createdBy` is recorded only when the programme starts as a proposal. */
  function Create(actor: UserId, now: nat, content: Content, asProposal: bool): Result<Programme, Error> {
    if !RangeOk(content.rule.montantMin, content.rule.montantMax) || !DistinctDocuments(content.documents) then
      Err(BadRequest)
    else
      Ok(Programme(ProgrammeBrouillon, if asProposal then Some(actor) else None, content.rule, [],
                   [NewDraft(1, content, actor, now)], 0))
  }

  /** A programme from before the versions: the migrations gave it version 1, or it still has none. */
  function Migrated(
    statut: ProgrammeStatut, rule: Rule, requis: seq<Document>, first: Option<Content>, effectiveFrom: nat): Programme
  {
    match first
    case None => Programme(statut, None, rule, requis, [], 0)
    case Some(content) =>
      Programme(statut, None, rule, requis, [Version(1, Active, effectiveFrom, None, content, None, None, None)], 1)
  }

  function DoCreateDraft(p: Programme, actor: UserId, now: nat): Result<Programme, Error> {
    if HasDraft(p.versions) then Err(Conflict)
    else
      var content := match Source(p.versions)
        case Some(v) => v.content
        case None => Content(p.rule, p.requis);
      Ok(p.(versions := p.versions + [NewDraft(MaxNumber(p.versions) + 1, content, actor, now)]))
  }

  function Edited(v: Version, actor: UserId, patch: Patch): Version {
    v.(content := Content(Patched(v.content.rule, patch), patch.documents.GetOr(v.content.documents)),
       preparedBy := Some(actor))
  }

  function DoUpdateDraft(p: Programme, actor: UserId, number: nat, patch: Patch): Result<Programme, Error> {
    if !PatchOk(patch) then Err(BadRequest)
    else match Find(p.versions, number)
      case None => Err(NotFound)
      case Some(i) =>
        var v := p.versions[i];
        var next := Edited(v, actor, patch);
        if v.statut != Brouillon then Err(Conflict)
        else if !RangeOk(next.content.rule.montantMin, next.content.rule.montantMax) then Err(BadRequest)
        else Ok(p.(versions := p.versions[i := next.(submitted := None, approved := None)]))
  }

  function DoSubmit(p: Programme, actor: UserId, number: nat, now: nat): Result<Programme, Error> {
    match Find(p.versions, number)
    case None => Err(NotFound)
    case Some(i) =>
      if p.versions[i].statut != Brouillon then Err(Conflict)
      else Ok(p.(versions := p.versions[i := p.versions[i].(submitted := Some(Stamp(actor, now)), approved := None)]))
  }

  function DoApprove(p: Programme, actor: UserId, number: nat, now: nat): Result<Programme, Error> {
    match Find(p.versions, number)
    case None => Err(NotFound)
    case Some(i) =>
      var v := p.versions[i];
      if v.statut != Brouillon || v.submitted.None? then Err(Conflict)
      else if v.preparedBy == Some(actor) || v.submitted.value.actor == actor then Err(Conflict)
      else Ok(p.(versions := p.versions[i := v.(approved := Some(Stamp(actor, now)))]))
  }

  function DoActivate(p: Programme, number: nat, now: nat): Result<Programme, Error> {
    match Find(p.versions, number)
    case None => Err(NotFound)
    case Some(i) =>
      var v := p.versions[i];
      if v.statut != Brouillon || v.approved.None? then Err(Conflict)
      // The table demands effective_to > effective_from.
      else if EmptyInterval(p.versions, number, now) then Err(ConstraintViolated)
      else
        Ok(p.(statut := ProgrammeActive, rule := v.content.rule, requis := v.content.documents,
              versions := Archived(p.versions, number, now)[
                i := v.(statut := Active, effectiveFrom := now, effectiveTo := None)]))
  }

  predicate OwnProposal(p: Programme, actor: UserId) {
    p.createdBy == Some(actor) && p.statut == ProgrammeBrouillon
  }

  function DoProposeRules(p: Programme, actor: UserId, number: nat, patch: Patch): Result<Programme, Error> {
    if !PatchOk(patch) then Err(BadRequest)
    else match Find(p.versions, number)
      case None => Err(NotFound)
      case Some(i) =>
        var v := p.versions[i];
        var next := Edited(v, actor, patch);
        if !OwnProposal(p, actor) then Err(NotFound)
        else if v.statut != Brouillon || v.submitted.Some? then Err(Conflict)
        else if !RangeOk(next.content.rule.montantMin, next.content.rule.montantMax) then Err(BadRequest)
        else Ok(p.(versions := p.versions[i := next]))
  }

  function DoProposeSubmit(p: Programme, actor: UserId, number: nat, now: nat): Result<Programme, Error> {
    match Find(p.versions, number)
    case None => Err(NotFound)
    case Some(i) =>
      if !OwnProposal(p, actor) then Err(NotFound)
      else if p.versions[i].statut != Brouillon || p.versions[i].submitted.Some? then Err(Conflict)
      else Ok(p.(versions := p.versions[i := p.versions[i].(submitted := Some(Stamp(actor, now)), approved := None)]))
  }

  function Step(p: Programme, e: Event): Result<Programme, Error> {
    match e.action
    case CreateDraft => DoCreateDraft(p, e.actor, e.now)
    case UpdateDraft(number, patch) => DoUpdateDraft(p, e.actor, number, patch)
    case Submit(number) => DoSubmit(p, e.actor, number, e.now)
    case Approve(number) => DoApprove(p, e.actor, number, e.now)
    case Activate(number) => DoActivate(p, number, e.now)
    case SetStatut(statut) => if statut == ProgrammeActive then Err(BadRequest) else Ok(p.(statut := statut))
    case ProposeRules(number, patch) => DoProposeRules(p, e.actor, number, patch)
    case ProposeSubmit(number) => DoProposeSubmit(p, e.actor, number, e.now)
  }

  function Next(p: Programme, e: Event): Programme {
    match Step(p, e)
    case Ok(p') => p'
    case Err(_) => p
  }

  function Replay(p: Programme, events: seq<Event>): Programme {
    if events == [] then p
    else Next(Replay(p, events[..|events| - 1]), events[|events| - 1])
  }

  // ---------------------------------------------------------------------------------------------
  // Reads
  // ---------------------------------------------------------------------------------------------

  predicate InForce(v: Version, now: nat) {
    v.effectiveFrom <= now && (v.effectiveTo.Some? ==> v.effectiveTo.value > now)
  }

  /** Index of the latest ACTIVE version in force: `ORDER BY version DESC LIMIT 1`. */
  function Effective(versions: seq<Version>, now: nat): (r: Option<nat>)
    ensures r.Some? ==> r.value < |versions| && versions[r.value].statut == Active && InForce(versions[r.value], now)
  {
    if versions == [] then None
    else
      var last, rest := versions[|versions| - 1], Effective(versions[..|versions| - 1], now);
      if last.statut == Active && InForce(last, now) && (rest.Some? ==> versions[rest.value].number < last.number)
      then Some(|versions| - 1) else rest
  }

  function Coalesce<T>(a: Option<T>, b: Option<T>): Option<T> {
    if a.Some? then a else b
  }

  /** The catalogue read: the version's columns, falling back on the programme's own ones. */
  function CatalogueRead(p: Programme, now: nat): Option<Content> {
    if p.statut != ProgrammeActive then None
    else match Effective(p.versions, now)
      case None => Some(Content(p.rule, p.requis))
      case Some(i) =>
        var r := p.versions[i].content.rule;
        Some(Content(
          Rule(Coalesce(r.montantMin, p.rule.montantMin), Coalesce(r.montantMax, p.rule.montantMax),
               Coalesce(r.apportMinPct, p.rule.apportMinPct), Coalesce(r.ancienneteMinMois, p.rule.ancienneteMinMois),
               r.rccmRequis, r.nifRequis, Coalesce(r.slaInstructionJours, p.rule.slaInstructionJours)),
          p.versions[i].content.documents))
  }

  // ---------------------------------------------------------------------------------------------
  // What every run keeps
  // ---------------------------------------------------------------------------------------------

  /** How many versions have left the draft stage; they come first. */
  function Published(p: Programme): (n: nat)
    ensures n <= |p.versions|
  {
    if p.versions != [] && p.versions[|p.versions| - 1].statut == Brouillon then |p.versions| - 1 else |p.versions|
  }

  /** A version made by these methods: its preparer is recorded, and an approval is that of a second actor. */
  predicate FourEyed(v: Version) {
    && v.preparedBy.Some?
    && (v.approved.Some? ==>
          && v.submitted.Some?
          && v.approved.value.actor != v.preparedBy.value
          && v.approved.value.actor != v.submitted.value.actor)
    && (v.statut != Brouillon ==> v.approved.Some?)
  }

  /** The programme's own columns and documents are those of the active version. */
  predicate CopyAgrees(p: Programme) {
    var n := Published(p);
    n > 0 ==> p.rule == p.versions[n - 1].content.rule && p.requis == p.versions[n - 1].content.documents
  }

  /** The published versions: the last is active, and their intervals follow one another without gap. */
  ghost predicate Timeline(p: Programme) {
    var n := Published(p);
    && (forall i :: 0 <= i < n ==> p.versions[i].statut == if i == n - 1 then Active else Archivee)
    && (forall i :: 0 <= i < n - 1 ==> p.versions[i].effectiveTo == Some(p.versions[i + 1].effectiveFrom))
    && (forall i, j :: 0 <= i < j < n ==> p.versions[i].effectiveFrom < p.versions[j].effectiveFrom)
    && (n > 0 ==> p.versions[n - 1].effectiveTo.None?)
  }

  /** Four eyes, activation up to the clock and the copy are promised above the baseline, the timeline for all. */
  ghost predicate Inv(p: Programme, clock: nat) {
    var n := Published(p);
    && p.baseline <= n
    && (forall i :: 0 <= i < |p.versions| ==> p.versions[i].number == i + 1)
    && (forall i :: p.baseline <= i < |p.versions| ==> FourEyed(p.versions[i]))
    && Timeline(p)
    && (n > p.baseline ==> p.versions[n - 1].effectiveFrom <= clock && CopyAgrees(p))
  }

  /** What the migrations leave is covered, a version 1 that is still to come into force included. */
  lemma MigratedInv(
    statut: ProgrammeStatut, rule: Rule, requis: seq<Document>, first: Option<Content>, effectiveFrom: nat, clock: nat)
    ensures Inv(Migrated(statut, rule, requis, first, effectiveFrom), clock)
  {
  }

  lemma FindByPosition(p: Programme, clock: nat, number: nat)
    requires Inv(p, clock)
    ensures Find(p.versions, number) == if 1 <= number <= |p.versions| then Some(number - 1) else None
  {
    if 1 <= number <= |p.versions| {
      assert p.versions[number - 1].number == number;
    }
  }

  lemma {:induction false} MaxNumberIsLength(versions: seq<Version>)
    requires forall i :: 0 <= i < |versions| ==> versions[i].number == i + 1
    ensures MaxNumber(versions) == |versions|
  {
    if versions != [] {
      MaxNumberIsLength(versions[..|versions| - 1]);
    }
  }

  lemma CreateInv(actor: UserId, now: nat, content: Content, asProposal: bool)
    requires Create(actor, now, content, asProposal).Ok?
    ensures Inv(Create(actor, now, content, asProposal).value, now)
  {
  }

  /** A draft edit touches the last row only and leaves every published row alone. */
  lemma EditInv(p: Programme, clock: nat, i: nat, v: Version)
    requires Inv(p, clock) && i < |p.versions| && p.versions[i].statut == Brouillon
    requires v.statut == Brouillon && v.number == i + 1 && FourEyed(v)
    ensures i == Published(p) == |p.versions| - 1
    ensures Inv(p.(versions := p.versions[i := v]), clock)
    ensures Published(p.(versions := p.versions[i := v])) == Published(p)
  {
  }

  lemma AddedDraftInv(p: Programme, clock: nat, v: Version)
    requires Inv(p, clock) && Published(p) == |p.versions|
    requires v.statut == Brouillon && v.number == |p.versions| + 1 && FourEyed(v)
    ensures Inv(p.(versions := p.versions + [v]), clock)
    ensures Published(p.(versions := p.versions + [v])) == Published(p)
  {
  }

  lemma CreateDraftInv(p: Programme, actor: UserId, now: nat)
    requires Inv(p, now) && DoCreateDraft(p, actor, now).Ok?
    ensures Inv(DoCreateDraft(p, actor, now).value, now)
    ensures Published(DoCreateDraft(p, actor, now).value) == Published(p)
  {
    MaxNumberIsLength(p.versions);
    assert Published(p) == |p.versions|;
    var rows := DoCreateDraft(p, actor, now).value.versions;
    AddedDraftInv(p, now, rows[|p.versions|]);
  }

  /** An activation publishes the draft, which comes last, and closes the interval before it. */
  lemma ActivateShape(p: Programme, number: nat, now: nat)
    requires Inv(p, now) && DoActivate(p, number, now).Ok?
    ensures var (n, q) := (Published(p), DoActivate(p, number, now).value);
            && number == n + 1 == |p.versions| == |q.versions| == Published(q)
            && q.versions[n] == p.versions[n].(statut := Active, effectiveFrom := now, effectiveTo := None)
            && (n > 0 ==> p.versions[n - 1].effectiveFrom < now)
            && (n > 0 ==> q.versions[n - 1] == p.versions[n - 1].(statut := Archivee, effectiveTo := Some(now)))
            && (forall i :: 0 <= i && i + 1 < n ==> q.versions[i] == p.versions[i])
            && q.rule == q.versions[n].content.rule && q.requis == q.versions[n].content.documents
            && q.baseline == p.baseline
  {
    FindByPosition(p, now, number);
    var n := Published(p);
    assert p.versions[number - 1].statut == Brouillon;
    if n > 0 {
      assert p.versions[n - 1].statut == Active;
    }
  }

  lemma ActivateTimeline(p: Programme, number: nat, now: nat)
    requires Inv(p, now) && DoActivate(p, number, now).Ok?
    ensures Timeline(DoActivate(p, number, now).value)
  {
    ActivateShape(p, number, now);
  }

  lemma ActivateInv(p: Programme, number: nat, now: nat)
    requires Inv(p, now) && DoActivate(p, number, now).Ok?
    ensures number == Published(p) + 1 == Published(DoActivate(p, number, now).value)
    ensures Inv(DoActivate(p, number, now).value, now)
  {
    ActivateShape(p, number, now);
    ActivateTimeline(p, number, now);
  }

  /** The version a draft edit, submission or approval is about. */
  function Target(a: Action): Option<nat> {
    match a
    case UpdateDraft(n, _) => Some(n)
    case Submit(n) => Some(n)
    case Approve(n) => Some(n)
    case ProposeRules(n, _) => Some(n)
    case ProposeSubmit(n) => Some(n)
    case _ => None
  }

  /** A draft row is replaced by another. */
  predicate RowReplaced(p: Programme, q: Programme, n: nat) {
    && 1 <= n <= |p.versions| == |q.versions| && p.versions[n - 1].statut == Brouillon
    && q == p.(versions := p.versions[n - 1 := q.versions[n - 1]])
    && q.versions[n - 1].statut == Brouillon && q.versions[n - 1].number == n && FourEyed(q.versions[n - 1])
  }

  lemma ContentEditShape(p: Programme, e: Event)
    requires Inv(p, e.now) && Step(p, e).Ok? && (e.action.UpdateDraft? || e.action.ProposeRules?)
    ensures RowReplaced(p, Next(p, e), e.action.number)
  {
    FindByPosition(p, e.now, e.action.number);
    assert FourEyed(p.versions[e.action.number - 1]);
  }

  lemma SigningShape(p: Programme, e: Event)
    requires Inv(p, e.now) && Step(p, e).Ok? && (e.action.Submit? || e.action.Approve? || e.action.ProposeSubmit?)
    ensures RowReplaced(p, Next(p, e), e.action.number)
  {
    FindByPosition(p, e.now, e.action.number);
    assert FourEyed(p.versions[e.action.number - 1]);
  }

  /** A draft edit, submission or approval replaces one draft row by another. */
  lemma EditShape(p: Programme, e: Event)
    requires Inv(p, e.now) && Step(p, e).Ok? && Target(e.action).Some?
    ensures RowReplaced(p, Next(p, e), Target(e.action).value)
  {
    if e.action.UpdateDraft? || e.action.ProposeRules? {
      ContentEditShape(p, e);
    } else {
      SigningShape(p, e);
    }
  }

  lemma EditStepInv(p: Programme, e: Event)
    requires Inv(p, e.now) && Step(p, e).Ok? && Target(e.action).Some?
    ensures var (n, q) := (Target(e.action).value, Next(p, e));
            && n == |p.versions| == Published(p) + 1
            && Inv(q, e.now) && Published(q) == Published(p)
            && q.versions == p.versions[n - 1 := q.versions[n - 1]]
  {
    EditShape(p, e);
    var n := Target(e.action).value;
    EditInv(p, e.now, n - 1, Next(p, e).versions[n - 1]);
  }

  lemma StatutInv(p: Programme, clock: nat, statut: ProgrammeStatut)
    requires Inv(p, clock)
    ensures Inv(p.(statut := statut), clock) && Published(p.(statut := statut)) == Published(p)
  {
  }

  lemma StepInv(p: Programme, e: Event)
    requires Inv(p, e.now)
    ensures Inv(Next(p, e), e.now)
    ensures Published(Next(p, e)) == if e.action.Activate? && Step(p, e).Ok? then Published(p) + 1 else Published(p)
  {
    if Step(p, e).Ok? {
      if Target(e.action).Some? {
        EditStepInv(p, e);
      } else {
        match e.action
        case CreateDraft => CreateDraftInv(p, e.actor, e.now);
        case Activate(number) => ActivateInv(p, number, e.now);
        case SetStatut(statut) => StatutInv(p, e.now, statut);
      }
    }
  }

  // ---------------------------------------------------------------------------------------------
  // Runs
  // ---------------------------------------------------------------------------------------------

  /** Events of one programme after its creation at `start`, in commit order. */
  ghost predicate Timed(start: nat, events: seq<Event>) {
    && (forall i :: 0 <= i < |events| ==> start <= events[i].now)
    && (forall i, j :: 0 <= i < j < |events| ==> events[i].now <= events[j].now)
  }

  function Clock(start: nat, events: seq<Event>): nat {
    if events == [] then start else events[|events| - 1].now
  }

  lemma InvLater(p: Programme, before: nat, now: nat)
    requires Inv(p, before) && before <= now
    ensures Inv(p, now)
  {
  }

  lemma {:induction false} RunInv(p: Programme, start: nat, events: seq<Event>)
    requires Inv(p, start) && Timed(start, events)
    ensures Inv(Replay(p, events), Clock(start, events))
  {
    if events != [] {
      var front, e := events[..|events| - 1], events[|events| - 1];
      RunInv(p, start, front);
      InvLater(Replay(p, front), Clock(start, front), e.now);
      StepInv(Replay(p, front), e);
    }
  }

  /** Numbers 1..n; only the last version can be a draft; after the active version comes at most that draft. */
  predicate OneDraftOneActive(versions: seq<Version>) {
    && (forall i :: 0 <= i < |versions| ==> versions[i].number == i + 1)
    && (forall i :: 0 <= i < |versions| - 1 ==> versions[i].statut != Brouillon)
    && (forall i, j :: 0 <= i < j < |versions| && versions[i].statut == Active ==> versions[j].statut == Brouillon)
    && (forall i, j :: 0 <= i < j < |versions| && versions[j].statut == Archivee ==> versions[i].statut == Archivee)
  }

  lemma RunOneDraftOneActive(p: Programme, start: nat, events: seq<Event>)
    requires Inv(p, start) && Timed(start, events)
    ensures OneDraftOneActive(Replay(p, events).versions)
  {
    RunInv(p, start, events);
    InvOneDraftOneActive(Replay(p, events), Clock(start, events));
  }

  lemma InvOneDraftOneActive(p: Programme, clock: nat)
    requires Inv(p, clock)
    ensures OneDraftOneActive(p.versions)
  {
  }

  /** Versions are activated in number order: each activation publishes exactly the next number. */
  lemma ActivationsInOrder(p: Programme, start: nat, events: seq<Event>, e: Event)
    requires Inv(p, start) && Timed(start, events) && Clock(start, events) <= e.now
    ensures var q := Replay(p, events);
            Published(Next(q, e)) ==
            match e.action
            case Activate(number) => if Step(q, e).Ok? then number else Published(q)
            case _ => Published(q)
    ensures e.action.Activate? && Step(Replay(p, events), e).Ok? ==> e.action.number == Published(Replay(p, events)) + 1
  {
    RunInv(p, start, events);
    InvLater(Replay(p, events), Clock(start, events), e.now);
    StepInv(Replay(p, events), e);
    if e.action.Activate? && Step(Replay(p, events), e).Ok? {
      ActivateInv(Replay(p, events), e.action.number, e.now);
    }
  }

  /** The published intervals [effective_from, effective_to) tile all time from the first activation on. */
  lemma {:induction false} IntervalsTile(p: Programme, clock: nat, t: nat, n: nat) returns (i: nat)
    requires Inv(p, clock) && 0 < n <= Published(p)
    requires p.versions[0].effectiveFrom <= t
    requires n < Published(p) ==> t < p.versions[n].effectiveFrom
    ensures i < n && InForce(p.versions[i], t)
    ensures forall j :: 0 <= j < Published(p) && InForce(p.versions[j], t) ==> j == i
    decreases n
  {
    if p.versions[n - 1].effectiveFrom <= t {
      i := n - 1;
      forall j | 0 <= j < i
        ensures !InForce(p.versions[j], t)
      {
        assert p.versions[j].effectiveTo == Some(p.versions[j + 1].effectiveFrom);
      }
    } else {
      i := IntervalsTile(p, clock, t, n - 1);
    }
  }

  lemma {:induction false} EffectiveIsGreatest(versions: seq<Version>, now: nat, i: nat)
    requires i < |versions| && versions[i].statut == Active && InForce(versions[i], now)
    requires forall j :: 0 <= j < |versions| && versions[j].statut == Active ==> j == i
    ensures Effective(versions, now) == Some(i)
  {
    if i < |versions| - 1 {
      EffectiveIsGreatest(versions[..|versions| - 1], now, i);
    } else {
      NoActiveNoEffective(versions[..|versions| - 1], now);
    }
  }

  lemma {:induction false} NoActiveNoEffective(versions: seq<Version>, now: nat)
    requires forall j :: 0 <= j < |versions| ==> versions[j].statut != Active
    ensures Effective(versions, now) == None
  {
    if versions != [] {
      NoActiveNoEffective(versions[..|versions| - 1], now);
    }
  }

  /**
   The lookup has exactly one candidate, the last published version, from its instant on; only a baseline can be still
   to come, and then there is no candidate.
   */
  lemma EffectiveIsLastPublished(p: Programme, clock: nat, now: nat)
    requires Inv(p, clock) && clock <= now
    ensures var n := Published(p);
            && Effective(p.versions, now) ==
               (if n == 0 || p.versions[n - 1].effectiveFrom > now then None else Some(n - 1))
            && (n > p.baseline ==> Effective(p.versions, now) == Some(n - 1))
  {
    var n := Published(p);
    if n == 0 {
      NoActiveNoEffective(p.versions, now);
    } else if p.versions[n - 1].effectiveFrom > now {
      NoneInForce(p.versions, now);
    } else {
      EffectiveIsGreatest(p.versions, now, n - 1);
    }
  }

  lemma {:induction false} NoneInForce(versions: seq<Version>, now: nat)
    requires forall j :: 0 <= j < |versions| && versions[j].statut == Active ==> !InForce(versions[j], now)
    ensures Effective(versions, now) == None
  {
    if versions != [] {
      NoneInForce(versions[..|versions| - 1], now);
    }
  }

  /** The copy, once it agrees, agrees for good; and any activation makes it agree. */
  lemma {:induction false} RunCopyAgrees(p: Programme, start: nat, events: seq<Event>)
    requires Inv(p, start) && Timed(start, events)
    requires CopyAgrees(p) || Published(Replay(p, events)) > p.baseline
    ensures CopyAgrees(Replay(p, events))
  {
    RunInv(p, start, events);
    BaselineStays(p, events);
    if Published(Replay(p, events)) <= p.baseline && events != [] {
      var front, e := events[..|events| - 1], events[|events| - 1];
      RunInv(p, start, front);
      InvLater(Replay(p, front), Clock(start, front), e.now);
      RunCopyAgrees(p, start, front);
      StepCopyAgrees(Replay(p, front), e);
    }
  }

  lemma EditCopyAgrees(p: Programme, e: Event)
    requires Inv(p, e.now) && CopyAgrees(p) && Step(p, e).Ok? && Target(e.action).Some?
    ensures CopyAgrees(Next(p, e))
  {
    EditShape(p, e);
    EditStepInv(p, e);
  }

  lemma StepCopyAgrees(p: Programme, e: Event)
    requires Inv(p, e.now) && CopyAgrees(p)
    ensures CopyAgrees(Next(p, e))
  {
    if Step(p, e).Ok? {
      if Target(e.action).Some? {
        EditCopyAgrees(p, e);
      } else {
        StepInv(p, e);
      }
    }
  }

  lemma {:induction false} BaselineStays(p: Programme, events: seq<Event>)
    ensures Replay(p, events).baseline == p.baseline
  {
    if events != [] {
      BaselineStays(p, events[..|events| - 1]);
    }
  }

  lemma ActiveCatalogue(p: Programme, clock: nat, now: nat)
    requires Inv(p, clock) && clock <= now && p.statut == ProgrammeActive && CopyAgrees(p)
    requires Effective(p.versions, now).Some?
    ensures Published(p) > 0
    ensures CatalogueRead(p, now) == Some(p.versions[Published(p) - 1].content) == Some(Content(p.rule, p.requis))
  {
    EffectiveIsLastPublished(p, clock, now);
  }

  /**
   While a version is in force, the COALESCE read returns its own values, null ones included, if the copy agreed with
   the baseline or a version was activated above it.
   */
  lemma CatalogueReadsTheVersion(p: Programme, start: nat, events: seq<Event>, now: nat)
    requires Inv(p, start) && Timed(start, events) && Clock(start, events) <= now
    requires CopyAgrees(p) || Published(Replay(p, events)) > p.baseline
    requires Replay(p, events).statut == ProgrammeActive && Effective(Replay(p, events).versions, now).Some?
    ensures var q := Replay(p, events);
            && Published(q) > 0
            && CatalogueRead(q, now) == Some(q.versions[Published(q) - 1].content) == Some(Content(q.rule, q.requis))
  {
    RunInv(p, start, events);
    RunCopyAgrees(p, start, events);
    ActiveCatalogue(Replay(p, events), Clock(start, events), now);
  }

  /** Who prepared, submitted and approved a version, and what it says. */
  predicate SameDecision(a: Version, b: Version) {
    a.content == b.content && a.preparedBy == b.preparedBy && a.submitted == b.submitted && a.approved == b.approved
  }

  predicate Approves(p: Programme, e: Event, k: nat) {
    e.action == Approve(k + 1) && Step(p, e).Ok?
  }

  /** What a step must leave of version `k`, as it is after the step. */
  ghost predicate KeptApproved(p: Programme, e: Event, k: nat) {
    && k < |p.versions| && k < |Next(p, e).versions|
    && var v := if Approves(p, e, k) then p.versions[k].(approved := Some(Stamp(e.actor, e.now))) else p.versions[k];
       SameDecision(v, Next(p, e).versions[k])
  }

  lemma EditKeepsApproved(p: Programme, e: Event, k: nat)
    requires Inv(p, e.now) && Step(p, e).Ok? && Target(e.action).Some?
    requires k < |Next(p, e).versions| && Next(p, e).versions[k].approved.Some?
    ensures KeptApproved(p, e, k)
  {
    EditStepInv(p, e);
    FindByPosition(p, e.now, Target(e.action).value);
  }

  lemma OtherKeepsApproved(p: Programme, e: Event, k: nat)
    requires Inv(p, e.now) && Step(p, e).Ok? && Target(e.action).None?
    requires k < |Next(p, e).versions| && Next(p, e).versions[k].approved.Some?
    ensures KeptApproved(p, e, k)
  {
    if e.action.Activate? {
      FindByPosition(p, e.now, e.action.number);
    }
  }

  /** A step leaves an approved version as it was, unless it is the approval itself. */
  lemma StepKeepsApproved(p: Programme, e: Event, k: nat)
    requires Inv(p, e.now)
    requires k < |Next(p, e).versions| && Next(p, e).versions[k].approved.Some?
    ensures k < |p.versions|
    ensures !Approves(p, e, k) ==> SameDecision(p.versions[k], Next(p, e).versions[k])
    ensures Approves(p, e, k) ==>
              SameDecision(p.versions[k].(approved := Some(Stamp(e.actor, e.now))), Next(p, e).versions[k])
  {
    if Step(p, e).Ok? {
      if Target(e.action).Some? {
        EditKeepsApproved(p, e, k);
      } else {
        OtherKeepsApproved(p, e, k);
      }
    }
  }

  /** No transaction unpublishes a version nor touches the content of a published one, baselines included. */
  lemma PublishedContentStays(p: Programme, e: Event, k: nat)
    requires Inv(p, e.now) && k < Published(p)
    ensures Inv(Next(p, e), e.now) && k < Published(Next(p, e))
    ensures Next(p, e).versions[k].content == p.versions[k].content
  {
    StepInv(p, e);
    if Step(p, e).Ok? {
      if Target(e.action).Some? {
        EditStepInv(p, e);
      } else if e.action.Activate? {
        ActivateInv(p, e.action.number, e.now);
        FindByPosition(p, e.now, e.action.number);
      }
    }
  }

  lemma LastStepKeepsApproved(p: Programme, start: nat, events: seq<Event>, k: nat)
    requires Inv(p, start) && Timed(start, events)
    requires k >= p.baseline && (k < |p.versions| ==> p.versions[k].approved.None?)
    requires k < |Replay(p, events).versions| && Replay(p, events).versions[k].approved.Some?
    ensures events != [] && FourEyed(Replay(p, events).versions[k])
    ensures var (q, e, v) := (Replay(p, events[..|events| - 1]), events[|events| - 1], Replay(p, events).versions[k]);
            && k < |q.versions|
            && (Approves(q, e, k) ==> SameDecision(q.versions[k].(approved := Some(Stamp(e.actor, e.now))), v))
            && (!Approves(q, e, k) ==> SameDecision(q.versions[k], v))
  {
    assert events != [];
    var front, e := events[..|events| - 1], events[|events| - 1];
    RunInv(p, start, front);
    RunInv(p, start, events);
    BaselineStays(p, events);
    InvLater(Replay(p, front), Clock(start, front), e.now);
    StepKeepsApproved(Replay(p, front), e, k);
  }

  /** Version `k` has stood as `v` since just after event `i`. */
  ghost predicate HeldSince(p: Programme, events: seq<Event>, k: nat, i: nat, v: Version) {
    forall j :: i < j <= |events| ==>
      k < |Replay(p, events[..j]).versions| && SameDecision(Replay(p, events[..j]).versions[k], v)
  }

  lemma HeldOneMore(p: Programme, events: seq<Event>, k: nat, i: nat, v: Version)
    requires events != [] && HeldSince(p, events[..|events| - 1], k, i, v)
    requires k < |Replay(p, events).versions| && SameDecision(Replay(p, events).versions[k], v)
    ensures HeldSince(p, events, k, i, v)
  {
    forall j | i < j <= |events|
      ensures k < |Replay(p, events[..j]).versions| && SameDecision(Replay(p, events[..j]).versions[k], v)
    {
      if j < |events| {
        assert events[..|events| - 1][..j] == events[..j];
      } else {
        assert events[..j] == events;
      }
    }
  }

  /**
   Four eyes: above the baseline, an approved version (every ACTIVE or ARCHIVEE one is) owes its approval to a
   successful approval by someone who neither prepared nor submitted it, and what was approved has not changed since.
   */
  lemma {:induction false} FourEyesOnContent(p: Programme, start: nat, events: seq<Event>, k: nat) returns (i: nat)
    requires Inv(p, start) && Timed(start, events)
    requires k >= p.baseline && (k < |p.versions| ==> p.versions[k].approved.None?)
    requires k < |Replay(p, events).versions| && Replay(p, events).versions[k].approved.Some?
    ensures i < |events| && Approves(Replay(p, events[..i]), events[i], k)
    ensures var v := Replay(p, events).versions[k];
            && v.approved == Some(Stamp(events[i].actor, events[i].now))
            && v.preparedBy.Some? && events[i].actor != v.preparedBy.value
            && v.submitted.Some? && events[i].actor != v.submitted.value.actor
            && k < |Replay(p, events[..i]).versions|
            && Replay(p, events[..i]).versions[k].content == v.content
            && HeldSince(p, events, k, i, v)
  {
    LastStepKeepsApproved(p, start, events, k);
    var front, e := events[..|events| - 1], events[|events| - 1];
    if Approves(Replay(p, front), e, k) {
      i := |front|;
    } else {
      i := FourEyesOnContent(p, start, front, k);
      assert front[..i] == events[..i];
    }
    HeldOneMore(p, events, k, i, Replay(p, events).versions[k]);
  }

  /** Whatever left the draft stage above the baseline went through that approval. */
  lemma {:induction false} PublishedMeansApproved(p: Programme, start: nat, events: seq<Event>, k: nat)
    requires Inv(p, start) && Timed(start, events)
    requires p.baseline <= k < |Replay(p, events).versions| && Replay(p, events).versions[k].statut != Brouillon
    ensures Replay(p, events).versions[k].approved.Some?
  {
    RunInv(p, start, events);
    BaselineStays(p, events);
    assert FourEyed(Replay(p, events).versions[k]);
  }

  /** An approved draft can be activated exactly when the version before it, if any, is already in force. */
  lemma ActivatesIff(p: Programme, clock: nat, actor: UserId, now: nat)
    requires Inv(p, clock) && Published(p) < |p.versions| && p.versions[Published(p)].approved.Some?
    ensures var n := Published(p);
            Step(p, Event(actor, now, Activate(n + 1))).Ok? <==> (n > 0 ==> p.versions[n - 1].effectiveFrom < now)
  {
    var n := Published(p);
    FindByPosition(p, clock, n + 1);
    assert n > 0 && p.versions[n - 1].effectiveFrom >= now ==> EmptyInterval(p.versions, n + 1, now);
  }

  const NO_CHANGE := Patch(None, None, None, None, None, None, None, None)

  /** An instant after the clock at which the version in the way, if any, can be archived. */
  function PublishTime(p: Programme, clock: nat): (at: nat)
    ensures at > clock
  {
    var n := Published(p);
    if n > 0 && p.versions[n - 1].effectiveFrom > clock then p.versions[n - 1].effectiveFrom + 1 else clock + 1
  }

  /** These events, the last one at `at`, publish a version asking for `documents`. */
  ghost predicate Publishes(p: Programme, clock: nat, at: nat, documents: seq<Document>, events: seq<Event>) {
    && Timed(clock, events) && Clock(clock, events) == at
    && var q := Replay(p, events);
       Inv(q, at) && Published(q) > q.baseline && q.versions[Published(q) - 1].content.documents == documents
  }

  lemma {:induction false} ReplayFirst(p: Programme, e: Event, rest: seq<Event>)
    ensures Replay(p, [e] + rest) == Replay(Next(p, e), rest)
  {
    if rest == [] {
      assert ([e] + rest)[..0] == [];
    } else {
      var front := rest[..|rest| - 1];
      assert ([e] + rest)[..|rest|] == [e] + front;
      ReplayFirst(p, e, front);
    }
  }

  lemma PublishesAfter(p: Programme, clock: nat, at: nat, documents: seq<Document>, e: Event, rest: seq<Event>)
    requires e.now == clock <= at && Publishes(Next(p, e), clock, at, documents, rest)
    ensures Publishes(p, clock, at, documents, [e] + rest)
  {
    ReplayFirst(p, e, rest);
  }

  lemma ReplayOne(p: Programme, e: Event)
    ensures Replay(p, [e]) == Next(p, e)
  {
    assert [e][..0] == [];
  }

  /** There is a draft, the last version, and it asks for these documents. */
  ghost predicate Drafts(p: Programme, clock: nat, documents: seq<Document>) {
    Inv(p, clock) && Published(p) < |p.versions| && Draft(p).content.documents == documents
  }

  function Draft(p: Programme): Version
    requires p.versions != []
  {
    p.versions[|p.versions| - 1]
  }

  /** Editing the last row changes neither what is published nor when the draft can be. */
  lemma DraftStep(p: Programme, clock: nat, e: Event)
    requires Inv(p, clock) && e.now == clock && Step(p, e).Ok? && Target(e.action).Some?
    ensures var q := Next(p, e);
            && Inv(q, clock) && Published(q) == Published(p) < |q.versions| && q.versions != []
            && PublishTime(q, clock) == PublishTime(p, clock)
  {
    EditStepInv(p, e);
  }

  lemma EditsDraft(p: Programme, clock: nat, documents: seq<Document>, e: Event)
    requires Inv(p, clock) && Published(p) < |p.versions| && DistinctDocuments(documents)
    requires var patch := NO_CHANGE.(montantMin := Some(None), documents := Some(documents));
             e == Event(0, clock, UpdateDraft(|p.versions|, patch))
    ensures Step(p, e).Ok? && Next(p, e).versions != []
    ensures Draft(Next(p, e)).content.documents == documents && Draft(Next(p, e)).preparedBy == Some(0)
  {
    FindByPosition(p, clock, |p.versions|);
  }

  lemma SubmitsDraft(p: Programme, clock: nat, e: Event)
    requires Inv(p, clock) && Published(p) < |p.versions| && e == Event(0, clock, Submit(|p.versions|))
    ensures Step(p, e).Ok? && Next(p, e).versions != []
    ensures Draft(Next(p, e)) == Draft(p).(submitted := Some(Stamp(0, clock)), approved := None)
  {
    FindByPosition(p, clock, |p.versions|);
  }

  lemma ApprovesDraft(p: Programme, clock: nat, e: Event)
    requires Inv(p, clock) && Published(p) < |p.versions| && e == Event(1, clock, Approve(|p.versions|))
    requires Draft(p).preparedBy == Some(0) && Draft(p).submitted == Some(Stamp(0, clock))
    ensures Step(p, e).Ok? && Next(p, e).versions != []
    ensures Draft(Next(p, e)) == Draft(p).(approved := Some(Stamp(1, clock)))
  {
    FindByPosition(p, clock, |p.versions|);
  }

  /** Activating the approved draft publishes it. */
  lemma ActivatesDraft(p: Programme, clock: nat, n: nat, e: Event)
    requires Inv(p, clock) && n == |p.versions| && Published(p) < n && p.versions[n - 1].approved.Some?
    requires e == Event(1, PublishTime(p, clock), Activate(n))
    ensures var q := Next(p, e);
            && Inv(q, e.now) && Published(q) == n > q.baseline
            && q.versions[n - 1].content == p.versions[n - 1].content
  {
    FindByPosition(p, clock, n);
    InvLater(p, clock, e.now);
    assert DoActivate(p, n, e.now).Ok?;
    ActivateInv(p, n, e.now);
  }

  lemma PublishApproved(p: Programme, clock: nat, documents: seq<Document>) returns (events: seq<Event>)
    requires Drafts(p, clock, documents) && Draft(p).approved.Some?
    ensures Publishes(p, clock, PublishTime(p, clock), documents, events)
  {
    var e := Event(1, PublishTime(p, clock), Activate(|p.versions|));
    ActivatesDraft(p, clock, |p.versions|, e);
    ReplayOne(p, e);
    events := [e];
  }

  lemma PublishSubmitted(p: Programme, clock: nat, documents: seq<Document>) returns (events: seq<Event>)
    requires Drafts(p, clock, documents) && Draft(p).preparedBy == Some(0)
    requires Draft(p).submitted == Some(Stamp(0, clock))
    ensures Publishes(p, clock, PublishTime(p, clock), documents, events)
  {
    var e := Event(1, clock, Approve(|p.versions|));
    ApprovesDraft(p, clock, e);
    DraftStep(p, clock, e);
    events := PublishApproved(Next(p, e), clock, documents);
    PublishesAfter(p, clock, PublishTime(p, clock), documents, e, events);
    events := [e] + events;
  }

  lemma PublishEdited(p: Programme, clock: nat, documents: seq<Document>) returns (events: seq<Event>)
    requires Drafts(p, clock, documents) && Draft(p).preparedBy == Some(0)
    ensures Publishes(p, clock, PublishTime(p, clock), documents, events)
  {
    var e := Event(0, clock, Submit(|p.versions|));
    SubmitsDraft(p, clock, e);
    DraftStep(p, clock, e);
    events := PublishSubmitted(Next(p, e), clock, documents);
    PublishesAfter(p, clock, PublishTime(p, clock), documents, e, events);
    events := [e] + events;
  }

  lemma PublishDraft(p: Programme, clock: nat, documents: seq<Document>) returns (events: seq<Event>)
    requires Inv(p, clock) && Published(p) < |p.versions| && DistinctDocuments(documents)
    ensures Publishes(p, clock, PublishTime(p, clock), documents, events)
  {
    var patch := NO_CHANGE.(montantMin := Some(None), documents := Some(documents));
    var e := Event(0, clock, UpdateDraft(|p.versions|, patch));
    EditsDraft(p, clock, documents, e);
    DraftStep(p, clock, e);
    events := PublishEdited(Next(p, e), clock, documents);
    PublishesAfter(p, clock, PublishTime(p, clock), documents, e, events);
    events := [e] + events;
  }

  /** Two actors can always publish any checklist, after the version in the way has come into force. */
  lemma Republish(p: Programme, clock: nat, documents: seq<Document>) returns (events: seq<Event>)
    requires Inv(p, clock) && DistinctDocuments(documents)
    ensures Publishes(p, clock, PublishTime(p, clock), documents, events)
  {
    if Published(p) < |p.versions| {
      events := PublishDraft(p, clock, documents);
    } else {
      var e := Event(0, clock, CreateDraft);
      assert Step(p, e).Ok?;
      CreateDraftInv(p, 0, clock);
      events := PublishDraft(Next(p, e), clock, documents);
      PublishesAfter(p, clock, PublishTime(p, clock), documents, e, events);
      events := [e] + events;
    }
  }

  // ---------------------------------------------------------------------------------------------
  // What an accepted request does, and which requests are accepted
  // ---------------------------------------------------------------------------------------------

  /** A field that the patch gives takes that value, a null included; one that it does not give keeps its own. */
  predicate Takes<T(==)>(before: T, wish: Option<T>, after: T) {
    && (wish.Some? ==> after == wish.value)
    && (wish.None? ==> after == before)
  }

  predicate TakesPatch(before: Content, patch: Patch, after: Content) {
    && Takes(before.rule.montantMin, patch.montantMin, after.rule.montantMin)
    && Takes(before.rule.montantMax, patch.montantMax, after.rule.montantMax)
    && Takes(before.rule.apportMinPct, patch.apportMinPct, after.rule.apportMinPct)
    && Takes(before.rule.ancienneteMinMois, patch.ancienneteMinMois, after.rule.ancienneteMinMois)
    && Takes(before.rule.rccmRequis, patch.rccmRequis, after.rule.rccmRequis)
    && Takes(before.rule.nifRequis, patch.nifRequis, after.rule.nifRequis)
    && Takes(before.rule.slaInstructionJours, patch.slaInstructionJours, after.rule.slaInstructionJours)
    && Takes(before.documents, patch.documents, after.documents)
  }

  /** Row `number` is the only thing that differs. */
  predicate OnlyRow(before: Programme, after: Programme, number: nat) {
    && after.(versions := before.versions) == before
    && 1 <= number <= |before.versions| == |after.versions|
    && forall i :: 0 <= i < |before.versions| && i != number - 1 ==> after.versions[i] == before.versions[i]
  }

  /** An edit of version `number` by `actor`: every field as the patch says, and the signatures it leaves. */
  predicate EditLands(
    before: Programme, after: Programme, number: nat, actor: UserId, patch: Patch, clears: bool)
  {
    && OnlyRow(before, after, number)
    && var (v, v') := (before.versions[number - 1], after.versions[number - 1]);
       && v.statut == Brouillon && TakesPatch(v.content, patch, v'.content)
       && v'.preparedBy == Some(actor)
       && v'.submitted == (if clears then None else v.submitted)
       && v'.approved == (if clears then None else v.approved)
       && v'.(content := v.content, preparedBy := v.preparedBy, submitted := v.submitted, approved := v.approved) == v
  }

  /** Both edits, field by field; Direction's clears submission and approval, the proposer's leaves them. */
  lemma EditsFieldByField(p: Programme, e: Event, number: nat, patch: Patch)
    requires Inv(p, e.now) && Step(p, e).Ok?
    requires e.action == UpdateDraft(number, patch) || e.action == ProposeRules(number, patch)
    ensures EditLands(p, Next(p, e), number, e.actor, patch, e.action.UpdateDraft?)
  {
    FindByPosition(p, e.now, number);
  }

  predicate Ordered(min: Option<nat>, max: Option<nat>) {
    min.Some? && max.Some? ==> min.value <= max.value
  }

  predicate NoRepeats(documents: seq<Document>) {
    && (forall i, j :: 0 <= i < j < |documents| ==> documents[i].code != documents[j].code)
    && (forall i, j :: 0 <= i < j < |documents| ==> documents[i].typeDocument != documents[j].typeDocument)
  }

  predicate ValidContent(content: Content) {
    Ordered(content.rule.montantMin, content.rule.montantMax) && NoRepeats(content.documents)
  }

  /** What the version would hold: the patch's own value, or the version's. */
  predicate PatchFits(rule: Rule, patch: Patch) {
    && (patch.documents.Some? ==> NoRepeats(patch.documents.value))
    && (patch.montantMin.Some? && patch.montantMax.Some? ==> Ordered(patch.montantMin.value, patch.montantMax.value))
    && Ordered(if patch.montantMin.Some? then patch.montantMin.value else rule.montantMin,
               if patch.montantMax.Some? then patch.montantMax.value else rule.montantMax)
  }

  /** The version is the programme's draft, which comes last. */
  predicate IsDraft(p: Programme, number: nat) {
    1 <= number == |p.versions| && p.versions[number - 1].statut == Brouillon
  }

  /** Exactly when each request is accepted. */
  predicate Admissible(p: Programme, e: Event) {
    match e.action
    case CreateDraft => forall i :: 0 <= i < |p.versions| ==> p.versions[i].statut != Brouillon
    case UpdateDraft(n, patch) => IsDraft(p, n) && PatchFits(p.versions[n - 1].content.rule, patch)
    case Submit(n) => IsDraft(p, n)
    case Approve(n) =>
      && IsDraft(p, n) && p.versions[n - 1].submitted.Some?
      && p.versions[n - 1].submitted.value.actor != e.actor && p.versions[n - 1].preparedBy != Some(e.actor)
    case Activate(n) =>
      && IsDraft(p, n) && p.versions[n - 1].approved.Some?
      && (n > 1 ==> p.versions[n - 2].effectiveFrom < e.now)
    case SetStatut(statut) => statut != ProgrammeActive
    case ProposeRules(n, patch) =>
      && IsDraft(p, n) && p.versions[n - 1].submitted.None? && PatchFits(p.versions[n - 1].content.rule, patch)
      && p.createdBy == Some(e.actor) && p.statut == ProgrammeBrouillon
    case ProposeSubmit(n) =>
      && IsDraft(p, n) && p.versions[n - 1].submitted.None?
      && p.createdBy == Some(e.actor) && p.statut == ProgrammeBrouillon
  }

  lemma DraftIsLast(p: Programme, clock: nat, number: nat)
    requires Inv(p, clock)
    ensures IsDraft(p, number) <==>
            1 <= number <= |p.versions| && p.versions[number - 1].statut == Brouillon
    ensures IsDraft(p, number) ==> number == Published(p) + 1
  {
  }

  lemma EditAdmitted(p: Programme, e: Event)
    requires Inv(p, e.now) && (e.action.UpdateDraft? || e.action.ProposeRules?)
    ensures Step(p, e).Ok? <==> Admissible(p, e)
  {
    FindByPosition(p, e.now, e.action.number);
    DraftIsLast(p, e.now, e.action.number);
  }

  lemma SigningAdmitted(p: Programme, e: Event)
    requires Inv(p, e.now) && (e.action.Submit? || e.action.Approve? || e.action.ProposeSubmit?)
    ensures Step(p, e).Ok? <==> Admissible(p, e)
  {
    FindByPosition(p, e.now, e.action.number);
    DraftIsLast(p, e.now, e.action.number);
  }

  lemma ActivationAdmitted(p: Programme, e: Event)
    requires Inv(p, e.now) && e.action.Activate?
    ensures Step(p, e).Ok? <==> Admissible(p, e)
  {
    var n := e.action.number;
    FindByPosition(p, e.now, n);
    DraftIsLast(p, e.now, n);
    if IsDraft(p, n) && p.versions[n - 1].approved.Some? {
      ActivatesIff(p, e.now, e.actor, e.now);
    }
  }

  /** A request is accepted if and only if it is admissible. */
  lemma AcceptedIffAdmissible(p: Programme, e: Event)
    requires Inv(p, e.now)
    ensures Step(p, e).Ok? <==> Admissible(p, e)
  {
    match e.action
    case CreateDraft =>
    case SetStatut(_) =>
    case Activate(_) => ActivationAdmitted(p, e);
    case UpdateDraft(_, _) => EditAdmitted(p, e);
    case ProposeRules(_, _) => EditAdmitted(p, e);
    case Submit(_) => SigningAdmitted(p, e);
    case Approve(_) => SigningAdmitted(p, e);
    case ProposeSubmit(_) => SigningAdmitted(p, e);
  }

  /** The version a request is about. */
  function Named(a: Action): Option<nat> {
    if a.Activate? then Some(a.number) else Target(a)
  }

  predicate Exists(p: Programme, a: Action) {
    Named(a).Some? && 1 <= Named(a).value <= |p.versions|
  }

  const NO_RULE := Rule(None, None, None, None, false, false, None)

  /** What each refusal of a request says about it. */
  predicate Explains(p: Programme, e: Event, error: Error) {
    var a := e.action;
    match error
    case BadRequest =>
      if a.SetStatut? then a.statut == ProgrammeActive
      else
        && (a.UpdateDraft? || a.ProposeRules?)
        && !PatchFits(if Exists(p, a) then p.versions[a.number - 1].content.rule else NO_RULE, a.patch)
    case NotFound =>
      && Named(a).Some?
      && (Exists(p, a) ==>
            (a.ProposeRules? || a.ProposeSubmit?) && !(p.createdBy == Some(e.actor) && p.statut == ProgrammeBrouillon))
    case Conflict =>
      if a.CreateDraft? then exists i :: 0 <= i < |p.versions| && p.versions[i].statut == Brouillon
      else
        && Exists(p, a)
        && var v := p.versions[Named(a).value - 1];
           || v.statut != Brouillon
           || (a.Approve? && (v.submitted.None? || v.submitted.value.actor == e.actor || v.preparedBy == Some(e.actor)))
           || (a.Activate? && v.approved.None?)
           || ((a.ProposeRules? || a.ProposeSubmit?) && v.submitted.Some?)
    case ConstraintViolated =>
      a.Activate? && Exists(p, a) && a.number > 1 && p.versions[a.number - 2].effectiveFrom >= e.now
  }

  lemma UpdateRefusalExplains(p: Programme, e: Event)
    requires Inv(p, e.now) && e.action.UpdateDraft? && Step(p, e).Err?
    ensures Explains(p, e, Step(p, e).error)
  {
    FindByPosition(p, e.now, e.action.number);
  }

  lemma ProposalRefusalExplains(p: Programme, e: Event)
    requires Inv(p, e.now) && e.action.ProposeRules? && Step(p, e).Err?
    ensures Explains(p, e, Step(p, e).error)
  {
    FindByPosition(p, e.now, e.action.number);
  }

  lemma OtherRefusalExplains(p: Programme, e: Event)
    requires Inv(p, e.now) && !e.action.UpdateDraft? && !e.action.ProposeRules? && !e.action.Activate?
    requires Step(p, e).Err?
    ensures Explains(p, e, Step(p, e).error)
  {
    if Named(e.action).Some? {
      FindByPosition(p, e.now, Named(e.action).value);
    }
  }

  lemma RefusalExplains(p: Programme, e: Event)
    requires Inv(p, e.now) && Step(p, e).Err?
    ensures Explains(p, e, Step(p, e).error)
  {
    if e.action.UpdateDraft? {
      UpdateRefusalExplains(p, e);
    } else if e.action.ProposeRules? {
      ProposalRefusalExplains(p, e);
    } else if e.action.Activate? {
      FindByPosition(p, e.now, e.action.number);
      ActivationAdmitted(p, e);
    } else {
      OtherRefusalExplains(p, e);
    }
  }

  lemma {:induction false} SourceIsTheActive(versions: seq<Version>, i: nat)
    requires i < |versions| && versions[i].statut == Active
    requires forall j :: 0 <= j < |versions| && versions[j].statut == Active ==> j == i
    ensures Source(versions) == Some(versions[i])
  {
    if i < |versions| - 1 {
      SourceIsTheActive(versions[..|versions| - 1], i);
    } else {
      NoActiveSource(versions[..|versions| - 1]);
    }
  }

  lemma {:induction false} NoActiveSource(versions: seq<Version>)
    requires forall j :: 0 <= j < |versions| ==> versions[j].statut != Active
    ensures Source(versions).Some? ==> Source(versions).value.statut != Active
  {
    if versions != [] {
      NoActiveSource(versions[..|versions| - 1]);
    }
  }

  /** The next version starts as the active one says, or as the programme's own columns do before any version. */
  predicate DraftLands(before: Programme, after: Programme, actor: UserId) {
    var n := |before.versions|;
    && |after.versions| == n + 1 && after.versions[..n] == before.versions
    && after.(versions := before.versions) == before
    && var v := after.versions[n];
       && v.number == n + 1 && v.statut == Brouillon && v.preparedBy == Some(actor)
       && v.submitted.None? && v.approved.None?
       && v.content.rule == (if n > 0 then before.versions[n - 1].content.rule else before.rule)
       && v.content.documents == (if n > 0 then before.versions[n - 1].content.documents else before.requis)
       && (n > 0 ==> before.versions[n - 1].statut == Active)
  }

  lemma DraftStartsFromTheActive(p: Programme, e: Event)
    requires Inv(p, e.now) && e.action == CreateDraft && Step(p, e).Ok?
    ensures |p.versions| == Published(p) && DraftLands(p, Next(p, e), e.actor)
  {
    var n := Published(p);
    CreateDraftInv(p, e.actor, e.now);
    MaxNumberIsLength(p.versions);
    assert |p.versions| == n;
    if n > 0 {
      SourceIsTheActive(p.versions, n - 1);
    }
  }

  /** One version, its draft, which says what was asked for; `createdBy` only on proposals. */
  predicate IsNew(p: Programme, actor: UserId, content: Content, asProposal: bool) {
    && |p.versions| == 1 && p.statut == ProgrammeBrouillon && p.baseline == 0
    && p.createdBy == (if asProposal then Some(actor) else None)
    && p.rule == content.rule && p.requis == []
    && var v := p.versions[0];
       && v.number == 1 && v.statut == Brouillon && v.content == content && v.preparedBy == Some(actor)
       && v.submitted.None? && v.approved.None?
  }

  lemma CreatesTheDraft(actor: UserId, now: nat, content: Content, asProposal: bool)
    ensures var r := Create(actor, now, content, asProposal);
            && (r.Ok? <==> ValidContent(content))
            && (r.Err? ==> r.error == BadRequest)
            && (r.Ok? ==> IsNew(r.value, actor, content, asProposal))
  {
  }

  /** The programme is active, with the rules of the version from that instant on, where the one before it ends. */
  predicate ActivationLands(before: Programme, after: Programme, number: nat, now: nat) {
    && 1 <= number == |before.versions| == |after.versions| && after.statut == ProgrammeActive
    && after.rule == before.versions[number - 1].content.rule
    && after.requis == before.versions[number - 1].content.documents
    && after.createdBy == before.createdBy
    && after.versions[number - 1].statut == Active && after.versions[number - 1].effectiveFrom == now
    && after.versions[number - 1].effectiveTo.None?
    && (number > 1 ==>
          after.versions[number - 2].statut == Archivee && after.versions[number - 2].effectiveTo == Some(now))
    && (forall i :: 0 <= i < number ==> SameDecision(before.versions[i], after.versions[i]))
  }

  lemma ActivationTakesEffect(p: Programme, e: Event)
    requires Inv(p, e.now) && e.action.Activate? && Step(p, e).Ok?
    ensures ActivationLands(p, Next(p, e), e.action.number, e.now)
  {
    ActivateShape(p, e.action.number, e.now);
  }

  /** The row is signed, and nothing else changes. */
  predicate SigningLands(before: Programme, after: Programme, number: nat, stamp: Stamp, approves: bool) {
    && OnlyRow(before, after, number)
    && var (v, v') := (before.versions[number - 1], after.versions[number - 1]);
       && v'.submitted == (if approves then v.submitted else Some(stamp))
       && v'.approved == (if approves then Some(stamp) else None)
       && v'.(submitted := v.submitted, approved := v.approved) == v
  }

  /** What an accepted request does to its programme. */
  predicate Lands(before: Programme, e: Event, after: Programme) {
    match e.action
    case CreateDraft => DraftLands(before, after, e.actor)
    case UpdateDraft(n, patch) => EditLands(before, after, n, e.actor, patch, true)
    case Submit(n) => SigningLands(before, after, n, Stamp(e.actor, e.now), false)
    case Approve(n) => SigningLands(before, after, n, Stamp(e.actor, e.now), true)
    case Activate(n) => ActivationLands(before, after, n, e.now)
    case SetStatut(statut) => after.statut == statut && after.(statut := before.statut) == before
    case ProposeRules(n, patch) => EditLands(before, after, n, e.actor, patch, false)
    case ProposeSubmit(n) => SigningLands(before, after, n, Stamp(e.actor, e.now), false)
  }

  lemma SigningTakesEffect(p: Programme, e: Event)
    requires Inv(p, e.now) && (e.action.Submit? || e.action.Approve? || e.action.ProposeSubmit?) && Step(p, e).Ok?
    ensures SigningLands(p, Next(p, e), e.action.number, Stamp(e.actor, e.now), e.action.Approve?)
  {
    FindByPosition(p, e.now, e.action.number);
  }

  lemma AcceptedLands(p: Programme, e: Event)
    requires Inv(p, e.now) && Step(p, e).Ok?
    ensures Lands(p, e, Next(p, e))
  {
    match e.action
    case CreateDraft => DraftStartsFromTheActive(p, e);
    case UpdateDraft(n, patch) => EditsFieldByField(p, e, n, patch);
    case ProposeRules(n, patch) => EditsFieldByField(p, e, n, patch);
    case Activate(_) => ActivationTakesEffect(p, e);
    case SetStatut(_) =>
    case _ => SigningTakesEffect(p, e);
  }

  // ---------------------------------------------------------------------------------------------
  // Who signed a version, by the requests of the run
  // ---------------------------------------------------------------------------------------------

  /** Preparer, submission and approval of a version. */
  datatype Signatures = Signatures(preparedBy: Option<UserId>, submitted: Option<Stamp>, approved: Option<Stamp>)

  function SignaturesOf(v: Version): Signatures {
    Signatures(v.preparedBy, v.submitted, v.approved)
  }

  /** What an accepted request does to the signatures of version `number`. */
  function Signed(before: Signatures, e: Event, number: nat): Signatures {
    match e.action
    case UpdateDraft(n, _) => if n == number then Signatures(Some(e.actor), None, None) else before
    case ProposeRules(n, _) => if n == number then before.(preparedBy := Some(e.actor)) else before
    case Submit(n) =>
      if n == number then before.(submitted := Some(Stamp(e.actor, e.now)), approved := None) else before
    case ProposeSubmit(n) =>
      if n == number then before.(submitted := Some(Stamp(e.actor, e.now)), approved := None) else before
    case Approve(n) => if n == number then before.(approved := Some(Stamp(e.actor, e.now))) else before
    case _ => before
  }

  /** The signatures of version `k`, read off the accepted requests alone. */
  function SignedBy(p: Programme, events: seq<Event>, k: nat): Option<Signatures> {
    if events == [] then
      if k < |p.versions| then Some(SignaturesOf(p.versions[k])) else None
    else
      var front, e := events[..|events| - 1], events[|events| - 1];
      var before := SignedBy(p, front, k);
      if Step(Replay(p, front), e).Err? then before
      else if before.Some? then Some(Signed(before.value, e, k + 1))
      else if e.action == CreateDraft && |Replay(p, front).versions| == k then
        Some(Signatures(Some(e.actor), None, None))
      else None
  }

  lemma StepSigns(p: Programme, e: Event, k: nat)
    requires Inv(p, e.now) && Step(p, e).Ok?
    ensures k < |p.versions| ==>
              && k < |Next(p, e).versions|
              && SignaturesOf(Next(p, e).versions[k]) == Signed(SignaturesOf(p.versions[k]), e, k + 1)
    ensures k >= |p.versions| ==>
              (k < |Next(p, e).versions| <==> e.action == CreateDraft && k == |p.versions|)
    ensures |p.versions| <= k < |Next(p, e).versions| ==>
              SignaturesOf(Next(p, e).versions[k]) == Signatures(Some(e.actor), None, None)
  {
    if Target(e.action).Some? {
      EditShape(p, e);
      FindByPosition(p, e.now, Target(e.action).value);
    } else if e.action.Activate? {
      ActivationTakesEffect(p, e);
      if k < |p.versions| {
        assert SameDecision(p.versions[k], Next(p, e).versions[k]);
      }
    }
  }

  /** The columns of every version say who signed it: exactly what the accepted requests of the run make of it. */
  lemma {:induction false} SignaturesAreTheRequests(p: Programme, start: nat, events: seq<Event>, k: nat)
    requires Inv(p, start) && Timed(start, events)
    ensures k < |Replay(p, events).versions| <==> SignedBy(p, events, k).Some?
    ensures k < |Replay(p, events).versions| ==>
              SignaturesOf(Replay(p, events).versions[k]) == SignedBy(p, events, k).value
  {
    if events != [] {
      var front, e := events[..|events| - 1], events[|events| - 1];
      SignaturesAreTheRequests(p, start, front, k);
      RunInv(p, start, front);
      InvLater(Replay(p, front), Clock(start, front), e.now);
      if Step(Replay(p, front), e).Ok? {
        StepSigns(Replay(p, front), e, k);
      }
    }
  }

  /**
   Four eyes on the actors: above the baseline, whoever's request approved a version is neither the author of the last
   accepted request that wrote it nor of the last one that submitted it.
   */
  lemma FourEyesOnActors(p: Programme, start: nat, events: seq<Event>, k: nat)
    requires Inv(p, start) && Timed(start, events) && k >= p.baseline
    requires SignedBy(p, events, k).Some? && SignedBy(p, events, k).value.approved.Some?
    ensures var signed := SignedBy(p, events, k).value;
            && signed.preparedBy.Some? && signed.submitted.Some?
            && signed.approved.value.actor != signed.preparedBy.value
            && signed.approved.value.actor != signed.submitted.value.actor
  {
    SignaturesAreTheRequests(p, start, events, k);
    RunInv(p, start, events);
    BaselineStays(p, events);
    assert FourEyed(Replay(p, events).versions[k]);
  }

  // ---------------------------------------------------------------------------------------------
  // What every version says is valid; proposals belong to their author
  // ---------------------------------------------------------------------------------------------

  predicate AllValid(p: Programme) {
    && ValidContent(Content(p.rule, p.requis))
    && forall i :: 0 <= i < |p.versions| ==> ValidContent(p.versions[i].content)
  }

  lemma DraftAllValid(p: Programme, e: Event)
    requires Inv(p, e.now) && AllValid(p) && e.action == CreateDraft && Step(p, e).Ok?
    ensures AllValid(Next(p, e))
  {
    DraftStartsFromTheActive(p, e);
    assert forall i :: 0 <= i < |p.versions| ==> Next(p, e).versions[i] == p.versions[i];
  }

  lemma ActivationAllValid(p: Programme, e: Event)
    requires Inv(p, e.now) && AllValid(p) && e.action.Activate? && Step(p, e).Ok?
    ensures AllValid(Next(p, e))
  {
    ActivationTakesEffect(p, e);
    assert forall i :: 0 <= i < |p.versions| ==> SameDecision(p.versions[i], Next(p, e).versions[i]);
  }

  lemma EditAllValid(p: Programme, e: Event)
    requires Inv(p, e.now) && AllValid(p) && Step(p, e).Ok? && Target(e.action).Some?
    ensures AllValid(Next(p, e))
  {
    EditShape(p, e);
    FindByPosition(p, e.now, Target(e.action).value);
  }

  lemma StepAllValid(p: Programme, e: Event)
    requires Inv(p, e.now) && AllValid(p)
    ensures AllValid(Next(p, e))
  {
    if Step(p, e).Ok? {
      match e.action
      case CreateDraft => DraftAllValid(p, e);
      case Activate(_) => ActivationAllValid(p, e);
      case SetStatut(_) =>
      case _ => EditAllValid(p, e);
    }
  }

  /** No run ever stores amounts out of order, or a document code or type twice, in a version or in the programme. */
  lemma {:induction false} RunAllValid(p: Programme, start: nat, events: seq<Event>)
    requires Inv(p, start) && Timed(start, events) && AllValid(p)
    ensures AllValid(Replay(p, events))
  {
    if events != [] {
      var front, e := events[..|events| - 1], events[|events| - 1];
      RunAllValid(p, start, front);
      RunInv(p, start, front);
      InvLater(Replay(p, front), Clock(start, front), e.now);
      StepAllValid(Replay(p, front), e);
    }
  }

  /** The proposers' requests touch only what they proposed themselves, and never a programme of Direction's. */
  lemma {:induction false} ProposalsBelongToTheirAuthor(p: Programme, events: seq<Event>, e: Event)
    requires e.action.ProposeRules? || e.action.ProposeSubmit?
    requires Step(Replay(p, events), e).Ok?
    ensures p.createdBy == Some(e.actor) && Replay(p, events).statut == ProgrammeBrouillon
  {
    AuthorStays(p, events);
  }

  lemma {:induction false} AuthorStays(p: Programme, events: seq<Event>)
    ensures Replay(p, events).createdBy == p.createdBy
  {
    if events != [] {
      AuthorStays(p, events[..|events| - 1]);
    }
  }

  /** The proposal editor keeps approvals: on a draft approved without being submitted it would break four eyes. */
  lemma ProposalEditorReliesOnSubmission(p: Programme, e: Event, number: nat, patch: Patch, i: nat)
    requires Find(p.versions, number) == Some(i) && p.versions[i].statut == Brouillon && p.versions[i].approved.Some?
    requires e.action == ProposeRules(number, patch) && OwnProposal(p, e.actor) && PatchOk(patch)
    requires var rule := Patched(p.versions[i].content.rule, patch); RangeOk(rule.montantMin, rule.montantMax)
    ensures Step(p, e).Ok? <==> p.versions[i].submitted.None?
    ensures Step(p, e).Ok? ==>
              && |Next(p, e).versions| == |p.versions|
              && Next(p, e).versions[i].approved == p.versions[i].approved
              && Next(p, e).versions[i].content == Edited(p.versions[i], e.actor, patch).content
  {
  }
}
