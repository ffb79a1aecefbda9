/**
 One financing dossier: the conditional updates of the four repositories that write it, and the runs
 of the services in front of them, whose reads may be arbitrarily stale when the update happens.
 */
module Workflow {
  import opened Common
  import S = Scoring

  type UserId = nat

  datatype Statut = Brouillon | Soumis | EnInstruction | ComplementRequis | PretComite | Approuve | Rejete

  datatype Move = Move(from: Statut, to: Statut, author: UserId)

  /** Amounts in cents, rates in ten-thousandths of a percent. */
  datatype CommitteeInput = CommitteeInput(
    decision: Statut, montantApprouve: Option<nat>, tauxInteret: Option<nat>, dureeMois: Option<nat>,
    differeMois: Option<nat>, commentLength: nat)

  datatype Decision = Decision(
    decision: Statut, montantApprouve: Option<nat>, tauxInteret: Option<nat>, dureeMois: Option<nat>)

  /** A row of the rule versions table: `version` number `number` of programme `programme`. */
  datatype RuleVersion = RuleVersion(programme: nat, number: nat)

  datatype ScoringModel = ScoringModel(id: nat, criteres: seq<S.Criterion>)

  /** A model that the tables accept. The active one is fixed during a run. */
  type Model = m: ScoringModel | S.ValidModel(m.criteres) witness ScoringModel(0, [])

  /** `regle` is the locked rule version; `scores` holds the score saved for each scoring model. */
  datatype Dossier = Dossier(
    owner: nat, programme: nat, regle: Option<RuleVersion>, montantDemande: nat, statut: Statut, agent: Option<UserId>,
    history: seq<Move>, decisions: seq<Decision>, scores: map<nat, S.Score>)

  function NewDossier(owner: nat, programme: nat, montantDemande: nat): Dossier {
    Dossier(owner, programme, None, montantDemande, Brouillon, None, [], [], map[])
  }

  // ---------------------------------------------------------------------------------------------
  // Policies
  // ---------------------------------------------------------------------------------------------

  /** The least amount that a request object accepts: one whole unit. */
  const MIN_REQUEST := 100

  function ReviewTransitions(s: Statut): set<Statut> {
    match s
    case Soumis => {EnInstruction, ComplementRequis}
    case EnInstruction => {ComplementRequis, PretComite}
    case ComplementRequis => {EnInstruction}
    case _ => {}
  }

  predicate CanClaim(d: Dossier) {
    d.statut in {Soumis, EnInstruction, ComplementRequis}
  }

  predicate CanReview(user: UserId, d: Dossier, next: Statut) {
    d.agent == Some(user) && next in ReviewTransitions(d.statut)
  }

  predicate CanScore(user: UserId, d: Dossier) {
    d.statut == EnInstruction && d.agent == Some(user)
  }

  /** What the committee's validation demands, apart from the amount requested. */
  predicate ValidTerms(input: CommitteeInput) {
    && input.decision in {Approuve, Rejete, ComplementRequis}
    && (input.decision != Approuve ==> input.commentLength >= 3)
    && (input.decision == Approuve ==>
          && input.montantApprouve.GetOr(0) > 0
          && 1 <= input.dureeMois.GetOr(0) <= 120
          && input.tauxInteret.GetOr(0) <= 100_0000
          && input.differeMois.GetOr(0) <= input.dureeMois.GetOr(0))
  }

  predicate ValidDecision(input: CommitteeInput, montantDemande: nat) {
    ValidTerms(input) && (input.decision == Approuve ==> input.montantApprouve.GetOr(0) <= montantDemande)
  }

  /** The committee's terms, one by one; what is absent counts as nothing. */
  lemma TermsMean(input: CommitteeInput, montantDemande: nat)
    ensures ValidDecision(input, montantDemande) <==>
            match input.decision
            case Approuve =>
              && input.montantApprouve.Some? && 0 < input.montantApprouve.value <= montantDemande
              && input.dureeMois.Some? && 1 <= input.dureeMois.value <= 120
              && (input.tauxInteret.Some? ==> input.tauxInteret.value <= 100 * 10_000)
              && (input.differeMois.Some? ==> input.differeMois.value <= input.dureeMois.value)
            case Rejete => input.commentLength >= 3
            case ComplementRequis => input.commentLength >= 3
            case _ => false
  {
  }

  /** The review's table has five moves, open to the assigned agent only. */
  lemma ReviewsMean(user: UserId, d: Dossier, next: Statut)
    ensures CanReview(user, d, next) <==>
            && d.agent == Some(user)
            && (d.statut, next) in {
                 (Soumis, EnInstruction), (Soumis, ComplementRequis), (EnInstruction, ComplementRequis),
                 (EnInstruction, PretComite), (ComplementRequis, EnInstruction)}
  {
  }

  /** The active model's score has as many details as the (non-empty) model has criteria. */
  predicate CommitteeReady(d: Dossier, m: Model) {
    m.id in d.scores && |d.scores[m.id].details| == |m.criteres| > 0
  }

  // ---------------------------------------------------------------------------------------------
  // Conditional updates: None when no row matches
  // ---------------------------------------------------------------------------------------------

  datatype Write =
    | UpdateOwned(owner: nat, programme: Option<nat>, montantDemande: Option<nat>)
    | SubmitOwned(owner: nat, user: UserId)
    | Claim(user: UserId)
    | Transition(user: UserId, expected: Statut, next: Statut)
    | Decide(user: UserId, input: CommitteeInput)
    | SaveScore(model: nat, score: S.Score)

  function DecisionOf(input: CommitteeInput): Decision {
    Decision(input.decision, input.montantApprouve, input.tauxInteret, input.dureeMois)
  }

  /** `effective` is the rule version in force for the dossier's programme when the statement runs. */
  function Apply(d: Dossier, w: Write, effective: Option<RuleVersion>): Option<Dossier> {
    match w
    case UpdateOwned(owner, programme, montant) =>
      if programme.None? && montant.None? then if d.owner == owner then Some(d) else None  // nothing is written
      else if montant == Some(0) then None  // the table demands montant_demande > 0
      else if d.owner == owner && (d.statut == Brouillon || (programme.None? && d.statut == ComplementRequis)) then
        Some(d.(programme := programme.GetOr(d.programme), montantDemande := montant.GetOr(d.montantDemande)))
      else None
    case SubmitOwned(owner, user) =>
      if d.owner == owner && d.statut == Brouillon then
        Some(d.(statut := Soumis, regle := if d.regle.Some? then d.regle else effective,
                history := d.history + [Move(Brouillon, Soumis, user)]))
      else None
    case Claim(user) =>
      if CanClaim(d) && (d.agent.None? || d.agent.value == user) then
        var statut := if d.statut == Soumis then EnInstruction else d.statut;
        Some(d.(agent := Some(user), statut := statut,
                history := if statut != d.statut then d.history + [Move(d.statut, statut, user)] else d.history))
      else None
    case Transition(user, expected, next) =>
      if d.agent == Some(user) && d.statut == expected then
        Some(d.(statut := next, history := d.history + [Move(expected, next, user)]))
      else None
    case Decide(user, input) =>
      if d.statut == PretComite then
        Some(d.(statut := input.decision, history := d.history + [Move(PretComite, input.decision, user)],
                decisions := d.decisions + [DecisionOf(input)]))
      else None
    case SaveScore(model, score) => Some(d.(scores := d.scores[model := score]))
  }

  function Written(d: Dossier, w: Write, effective: Option<RuleVersion>): Dossier {
    Apply(d, w, effective).GetOr(d)
  }

  // ---------------------------------------------------------------------------------------------
  // Which row a statement matches, and what it leaves of it
  // ---------------------------------------------------------------------------------------------

  /** An absent field keeps its value. */
  predicate Takes(before: nat, wish: Option<nat>, after: nat) {
    && (wish.Some? ==> after == wish.value)
    && (wish.None? ==> after == before)
  }

  predicate Lands(d: Dossier, w: Write) {
    match w
    case UpdateOwned(owner, programme, montant) =>
      && d.owner == owner && montant != Some(0)
      && (programme.Some? ==> d.statut == Brouillon)
      && (montant.Some? ==> d.statut in {Brouillon, ComplementRequis})
    case SubmitOwned(owner, _) => d.owner == owner && d.statut == Brouillon
    case Claim(user) =>
      d.statut in {Soumis, EnInstruction, ComplementRequis} && (d.agent.Some? ==> d.agent.value == user)
    case Transition(user, expected, _) => d.agent == Some(user) && d.statut == expected
    case Decide(_, _) => d.statut == PretComite
    case SaveScore(_, _) => true
  }

  /** One move is added to the history, from the status before to the status after, by this user. */
  predicate MoveAdded(before: Dossier, after: Dossier, user: UserId) {
    && |after.history| == |before.history| + 1 && before.history <= after.history
    && var m := after.history[|before.history|];
       m.from == before.statut && m.to == after.statut && m.author == user
  }

  /** One decision is added: the verdict, the amount, the rate and the duration that were sent. */
  predicate DecisionAdded(before: Dossier, after: Dossier, input: CommitteeInput) {
    && |after.decisions| == |before.decisions| + 1 && before.decisions <= after.decisions
    && var last := after.decisions[|before.decisions|];
       && last.decision == input.decision && last.montantApprouve == input.montantApprouve
       && last.tauxInteret == input.tauxInteret && last.dureeMois == input.dureeMois
  }

  predicate Leaves(before: Dossier, w: Write, effective: Option<RuleVersion>, after: Dossier) {
    match w
    case UpdateOwned(_, programme, montant) =>
      && Takes(before.programme, programme, after.programme)
      && Takes(before.montantDemande, montant, after.montantDemande)
      && after.(programme := before.programme, montantDemande := before.montantDemande) == before
    case SubmitOwned(_, user) =>
      && after.statut == Soumis && MoveAdded(before, after, user)
      && (before.regle.Some? ==> after.regle == before.regle) && (before.regle.None? ==> after.regle == effective)
      && after.(statut := before.statut, history := before.history, regle := before.regle) == before
    case Claim(user) =>
      && after.agent == Some(user)
      && (before.statut == Soumis ==> after.statut == EnInstruction && MoveAdded(before, after, user))
      && (before.statut != Soumis ==> after.statut == before.statut && after.history == before.history)
      && after.(agent := before.agent, statut := before.statut, history := before.history) == before
    case Transition(user, _, next) =>
      && after.statut == next && MoveAdded(before, after, user)
      && after.(statut := before.statut, history := before.history) == before
    case Decide(user, input) =>
      && after.statut == input.decision && MoveAdded(before, after, user) && DecisionAdded(before, after, input)
      && after.(statut := before.statut, history := before.history, decisions := before.decisions) == before
    case SaveScore(model, score) =>
      && after.scores.Keys == before.scores.Keys + {model} && after.scores[model] == score
      && (forall k :: k in before.scores && k != model ==> after.scores[k] == before.scores[k])
      && after.(scores := before.scores) == before
  }

  /** A statement matches exactly such rows, and writes exactly that. */
  lemma WriteMeans(d: Dossier, w: Write, effective: Option<RuleVersion>)
    ensures Apply(d, w, effective).Some? <==> Lands(d, w)
    ensures Lands(d, w) ==> Leaves(d, w, effective, Apply(d, w, effective).value)
  {
  }

  /** The score of some answers to the model's criteria. */
  ghost predicate Calculated(score: S.Score, m: Model) {
    exists answers :: S.ScoreOf(m.criteres, answers) == Ok(score)
  }

  /** The writes the services can issue, given that they check a policy on some earlier read. */
  ghost predicate Issuable(w: Write, m: Model) {
    match w
    case UpdateOwned(_, _, montant) => montant.GetOr(MIN_REQUEST) >= MIN_REQUEST
    case Transition(_, expected, next) => next in ReviewTransitions(expected)
    case Decide(_, input) => ValidTerms(input)
    case SaveScore(model, score) => model == m.id && Calculated(score, m)
    case _ => true
  }

  // ---------------------------------------------------------------------------------------------
  // What every issuable write keeps
  // ---------------------------------------------------------------------------------------------

  /** The moves that ever happen. Review would also permit SOUMIS to COMPLEMENT_REQUIS, which is never taken. */
  predicate Permitted(from: Statut, to: Statut) {
    match from
    case Brouillon => to == Soumis
    case Soumis => to == EnInstruction
    case EnInstruction => to in {ComplementRequis, PretComite}
    case ComplementRequis => to == EnInstruction
    case PretComite => to in {Approuve, Rejete, ComplementRequis}
    case _ => false
  }

  predicate UnbrokenPath(history: seq<Move>, statut: Statut) {
    && (forall i :: 0 <= i < |history| ==> Permitted(history[i].from, history[i].to))
    && (forall i :: 0 <= i < |history| - 1 ==> history[i].to == history[i + 1].from)
    && (if history == [] then statut == Brouillon
        else history[0].from == Brouillon && history[|history| - 1].to == statut)
  }

  predicate Assigned(d: Dossier) {
    d.agent.None? <==> d.statut in {Brouillon, Soumis}
  }

  /** Every move of the review was made by the one agent of the dossier. */
  predicate Authored(d: Dossier) {
    forall i :: 0 <= i < |d.history| && d.history[i].from in {Soumis, EnInstruction, ComplementRequis} ==>
      d.agent == Some(d.history[i].author)
  }

  /** The moves that the committee made. */
  function Verdicts(history: seq<Move>): seq<Statut> {
    if history == [] then []
    else
      var last := history[|history| - 1];
      Verdicts(history[..|history| - 1]) + if last.from == PretComite then [last.to] else []
  }

  /** One decision for each move of the committee, in the same order, saying where the dossier went. */
  predicate DecisionsFollow(d: Dossier) {
    var verdicts := Verdicts(d.history);
    |verdicts| == |d.decisions| && forall i :: 0 <= i < |verdicts| ==> d.decisions[i].decision == verdicts[i]
  }

  /** An approval is the last decision, on valid terms, and leaves the dossier approved. */
  predicate Decided(d: Dossier) {
    && (forall i :: 0 <= i < |d.decisions| && d.decisions[i].decision == Approuve ==>
          i == |d.decisions| - 1 && d.statut == Approuve)
    && (d.statut == Approuve ==>
          && d.decisions != []
          && var last := d.decisions[|d.decisions| - 1];
             && last.decision == Approuve
             && last.montantApprouve.GetOr(0) > 0
             && 1 <= last.dureeMois.GetOr(0) <= 120
             && last.tauxInteret.GetOr(0) <= 100_0000)
  }

  /** One detail per criterion, in the criteria's order. */
  predicate Complete(score: S.Score, m: Model) {
    && |score.details| == |m.criteres|
    && forall i :: 0 <= i < |m.criteres| ==> score.details[i].code == m.criteres[i].code
  }

  predicate DossierInv(d: Dossier, m: Model) {
    && UnbrokenPath(d.history, d.statut)
    && Assigned(d)
    && Authored(d)
    && DecisionsFollow(d)
    && Decided(d)
    && (m.id in d.scores ==> Complete(d.scores[m.id], m))
    && (d.statut == PretComite ==> CommitteeReady(d, m))
  }

  lemma PathExtends(history: seq<Move>, m: Move)
    requires UnbrokenPath(history, m.from) && Permitted(m.from, m.to)
    ensures UnbrokenPath(history + [m], m.to)
    ensures Verdicts(history + [m]) == Verdicts(history) + if m.from == PretComite then [m.to] else []
  {
    assert (history + [m])[..|history|] == history;
  }

  /** The score calculation answers only when every criterion is answered, so what it saves is complete. */
  lemma CalculatedIsComplete(score: S.Score, m: Model)
    requires Calculated(score, m)
    ensures Complete(score, m)
  {
    var answers :| S.ScoreOf(m.criteres, answers) == Ok(score);
    S.DetailsFollow(m.criteres, S.AnswerByCode(answers), S.TotalWeight(m.criteres));
  }

  /** A move outside the committee, made by the agent there is, or by the one who becomes it. */
  lemma MoveKeeps(d: Dossier, to: Statut, user: UserId, agent: Option<UserId>, regle: Option<RuleVersion>, m: Model)
    requires DossierInv(d, m) && d.statut != PretComite && Permitted(d.statut, to)
    requires (d.agent.Some? ==> agent == d.agent) && (d.statut != Brouillon ==> agent == Some(user))
    requires (agent.None? <==> to == Soumis) && (to == PretComite ==> CommitteeReady(d, m))
    ensures var history := d.history + [Move(d.statut, to, user)];
            DossierInv(d.(statut := to, agent := agent, regle := regle, history := history), m)
  {
    PathExtends(d.history, Move(d.statut, to, user));
  }

  lemma TransitionKeeps(d: Dossier, user: UserId, expected: Statut, next: Statut, m: Model)
    requires DossierInv(d, m) && next in ReviewTransitions(expected) && (next == PretComite ==> CommitteeReady(d, m))
    ensures DossierInv(Written(d, Transition(user, expected, next), None), m)
  {
    if d.agent == Some(user) && d.statut == expected {
      MoveKeeps(d, next, user, d.agent, d.regle, m);
    }
  }

  lemma DecideKeeps(d: Dossier, user: UserId, input: CommitteeInput, m: Model)
    requires DossierInv(d, m) && ValidTerms(input)
    ensures DossierInv(Written(d, Decide(user, input), None), m)
  {
    if d.statut == PretComite {
      PathExtends(d.history, Move(PretComite, input.decision, user));
    }
  }

  lemma ClaimKeeps(d: Dossier, user: UserId, m: Model)
    requires DossierInv(d, m)
    ensures DossierInv(Written(d, Claim(user), None), m)
  {
    if d.statut == Soumis {
      MoveKeeps(d, EnInstruction, user, Some(user), d.regle, m);
    }
  }

  lemma SubmitKeeps(d: Dossier, owner: nat, user: UserId, effective: Option<RuleVersion>, m: Model)
    requires DossierInv(d, m)
    ensures DossierInv(Written(d, SubmitOwned(owner, user), effective), m)
  {
    if d.owner == owner && d.statut == Brouillon {
      var regle := if d.regle.Some? then d.regle else effective;
      MoveKeeps(d, Soumis, user, d.agent, regle, m);
    } else {
      assert Written(d, SubmitOwned(owner, user), effective) == d;
    }
  }

  lemma SaveScoreKeeps(d: Dossier, score: S.Score, m: Model)
    requires DossierInv(d, m) && Complete(score, m)
    ensures DossierInv(Written(d, SaveScore(m.id, score), None), m)
  {
  }

  /** Readiness is all that has to be known of the dossier itself, and only for the move to PRET_COMITE. */
  lemma WriteKeeps(d: Dossier, w: Write, effective: Option<RuleVersion>, m: Model)
    requires DossierInv(d, m) && Issuable(w, m)
    requires w.Transition? && w.next == PretComite ==> CommitteeReady(d, m)
    ensures DossierInv(Written(d, w, effective), m)
  {
    match w
    case UpdateOwned(_, _, _) =>
    case SubmitOwned(owner, user) => SubmitKeeps(d, owner, user, effective, m);
    case Claim(user) => ClaimKeeps(d, user, m);
    case Transition(user, expected, next) => TransitionKeeps(d, user, expected, next, m);
    case Decide(user, input) => DecideKeeps(d, user, input, m);
    case SaveScore(_, score) =>
      CalculatedIsComplete(score, m);
      SaveScoreKeeps(d, score, m);
  }

  /** What can no longer change once it is there. */
  predicate Settled(before: Dossier, after: Dossier) {
    && (before.agent.Some? ==> after.agent == before.agent)
    && (before.statut in {Approuve, Rejete} ==> after.(scores := before.scores) == before)
    && before.history <= after.history
    && before.decisions <= after.decisions
    && before.scores.Keys <= after.scores.Keys
    && (before.statut != Brouillon ==>
          after.statut != Brouillon && after.programme == before.programme && after.regle == before.regle)
  }

  /** While the history of a dossier before the committee does not grow, its status and its request stay. */
  predicate QuietKeeps(before: Dossier, after: Dossier) {
    before.statut == PretComite && |after.history| == |before.history| ==>
      after.statut == PretComite && after.montantDemande == before.montantDemande
  }

  lemma WriteSettles(d: Dossier, w: Write, effective: Option<RuleVersion>, m: Model)
    requires DossierInv(d, m) && Issuable(w, m)
    ensures Settled(d, Written(d, w, effective)) && QuietKeeps(d, Written(d, w, effective))
  {
  }

  // ---------------------------------------------------------------------------------------------
  // Services: reads are kept and may be used at any later time
  // ---------------------------------------------------------------------------------------------

  datatype Review = Review(user: UserId, expected: Statut, next: Statut)

  /** An input found valid on a dossier whose history had `at` moves. */
  datatype CommitteeRead = CommitteeRead(user: UserId, input: CommitteeInput, at: nat)

  /**
   `seen`: reviews allowed by some read; `checked`: those also past the readiness check; `agenda`: decisions validated
   on some read; `approval`: the one that approved the dossier.
   */
  datatype World = World(
    dossier: Dossier, seen: set<Review>, checked: set<Review>, scorers: set<UserId>, agenda: set<CommitteeRead>,
    approval: Option<CommitteeRead>)

  function Start(d: Dossier): World {
    World(d, {}, {}, {}, {}, None)
  }

  datatype Event =
    | PmeUpdates(owner: nat, programme: Option<nat>, montantDemande: Option<nat>)
    | PmeSubmits(owner: nat, user: UserId, effective: Option<RuleVersion>)
    | AgentClaims(user: UserId)
    | ReviewReads(user: UserId, next: Statut)
    | ReviewChecksReady(review: Review)
    | ReviewCommits(review: Review)
    | ScorerReads(user: UserId)
    | ScorerSaves(user: UserId, answers: seq<S.Answer>)
    | CommitteeReads(user: UserId, input: CommitteeInput)
    | CommitteeCommits(read: CommitteeRead)

  /** The statement an event runs, if any, on the reads kept so far. */
  function WriteOf(w: World, e: Event, m: Model): Option<(Write, Option<RuleVersion>)> {
    match e
    case PmeUpdates(owner, programme, montant) =>
      if montant.GetOr(MIN_REQUEST) >= MIN_REQUEST then Some((UpdateOwned(owner, programme, montant), None)) else None
    case PmeSubmits(owner, user, effective) => Some((SubmitOwned(owner, user), effective))
    case AgentClaims(user) => Some((Claim(user), None))
    case ReviewCommits(r) => if r in w.checked then Some((Transition(r.user, r.expected, r.next), None)) else None
    case ScorerSaves(user, answers) =>
      if user !in w.scorers then None
      else (match S.ScoreOf(m.criteres, answers)
            case Ok(score) => Some((SaveScore(m.id, score), None))
            case Err(_) => None)
    case CommitteeCommits(r) => if r in w.agenda then Some((Decide(r.user, r.input), None)) else None
    case _ => None
  }

  function DossierAfter(w: World, e: Event, m: Model): Dossier {
    match WriteOf(w, e, m)
    case Some((write, effective)) => Written(w.dossier, write, effective)
    case None => w.dossier
  }

  function Next(w: World, e: Event, m: Model): World {
    var d := w.dossier;
    var after := w.(dossier := DossierAfter(w, e, m));
    match e
    case ReviewReads(user, next) =>
      if CanReview(user, d, next) then after.(seen := w.seen + {Review(user, d.statut, next)}) else after
    case ReviewChecksReady(r) =>
      if r in w.seen && (r.next == PretComite ==> CommitteeReady(d, m))
      then after.(checked := w.checked + {r}) else after
    case ScorerReads(user) => if CanScore(user, d) then after.(scorers := w.scorers + {user}) else after
    case CommitteeReads(user, input) =>
      if d.statut == PretComite && d.scores != map[] && ValidDecision(input, d.montantDemande)
      then after.(agenda := w.agenda + {CommitteeRead(user, input, |d.history|)}) else after
    case CommitteeCommits(r) =>
      if r in w.agenda && d.statut == PretComite && r.input.decision == Approuve
      then after.(approval := Some(r)) else after
    case _ => after
  }

  /** How a run goes on from `w`. */
  function Continue(w: World, rest: seq<Event>, m: Model): World {
    if rest == [] then w else Next(Continue(w, rest[..|rest| - 1], m), rest[|rest| - 1], m)
  }

  function Replay(d: Dossier, events: seq<Event>, m: Model): World {
    Continue(Start(d), events, m)
  }

  // ---------------------------------------------------------------------------------------------
  // What every run keeps
  // ---------------------------------------------------------------------------------------------

  predicate ReviewHolds(r: Review, d: Dossier, m: Model, checked: bool) {
    && d.agent == Some(r.user)
    && r.next in ReviewTransitions(r.expected)
    && (checked && r.next == PretComite ==> CommitteeReady(d, m))
  }

  /** A committee read still describes the dossier while the history has not grown since. */
  predicate ReadHolds(r: CommitteeRead, d: Dossier, m: Model) {
    && r.at <= |d.history|
    && ValidTerms(r.input)
    && d.agent.Some?
    && CommitteeReady(d, m)
    && (r.at == |d.history| ==> d.statut == PretComite && ValidDecision(r.input, d.montantDemande))
  }

  /** The last decision is the recorded approval, within the request if the history had not grown since its read. */
  predicate ApprovalHolds(w: World) {
    w.dossier.statut == Approuve ==>
      && w.approval.Some? && w.dossier.decisions != []
      && var last := w.dossier.decisions[|w.dossier.decisions| - 1];
         && last.montantApprouve == w.approval.value.input.montantApprouve
         && last.tauxInteret == w.approval.value.input.tauxInteret
         && last.dureeMois == w.approval.value.input.dureeMois
         && w.approval.value.input.decision == Approuve
         && w.dossier.history != []
         && w.dossier.history[|w.dossier.history| - 1] == Move(PretComite, Approuve, w.approval.value.user)
         && (w.approval.value.at + 1 == |w.dossier.history| ==>
               last.montantApprouve.GetOr(0) <= w.dossier.montantDemande)
  }

  ghost predicate Inv(w: World, m: Model) {
    && DossierInv(w.dossier, m)
    && (forall r :: r in w.seen ==> ReviewHolds(r, w.dossier, m, false))
    && (forall r :: r in w.checked ==> ReviewHolds(r, w.dossier, m, true))
    && (forall r :: r in w.agenda ==> ReadHolds(r, w.dossier, m))
    && (forall user :: user in w.scorers ==> w.dossier.agent == Some(user))
    && ApprovalHolds(w)
  }

  lemma WriteOfIsIssuable(w: World, e: Event, m: Model)
    requires Inv(w, m) && WriteOf(w, e, m).Some?
    ensures var write := WriteOf(w, e, m).value.0;
            Issuable(write, m) && (write.Transition? && write.next == PretComite ==> CommitteeReady(w.dossier, m))
  {
    match e
    case ReviewCommits(r) => assert ReviewHolds(r, w.dossier, m, true);
    case CommitteeCommits(r) => assert ReadHolds(r, w.dossier, m);
    case _ =>
  }

  lemma SettledItself(d: Dossier)
    ensures Settled(d, d) && QuietKeeps(d, d)
  {
  }

  lemma NextDossier(w: World, e: Event, m: Model)
    ensures Next(w, e, m).dossier == DossierAfter(w, e, m)
  {
  }

  lemma WrittenSettled(d: Dossier, write: Write, effective: Option<RuleVersion>, m: Model)
    requires DossierInv(d, m) && Issuable(write, m)
    requires write.Transition? && write.next == PretComite ==> CommitteeReady(d, m)
    ensures var after := Written(d, write, effective);
            Settled(d, after) && QuietKeeps(d, after) && DossierInv(after, m)
  {
    WriteKeeps(d, write, effective, m);
    WriteSettles(d, write, effective, m);
  }

  lemma AfterSettled(w: World, e: Event, m: Model)
    requires Inv(w, m)
    ensures var after := DossierAfter(w, e, m);
            Settled(w.dossier, after) && QuietKeeps(w.dossier, after) && DossierInv(after, m)
  {
    match WriteOf(w, e, m)
    case None => SettledItself(w.dossier);
    case Some((write, effective)) =>
      WriteOfIsIssuable(w, e, m);
      WrittenSettled(w.dossier, write, effective, m);
  }

  lemma StepSettled(w: World, e: Event, m: Model)
    requires Inv(w, m)
    ensures Settled(w.dossier, Next(w, e, m).dossier) && QuietKeeps(w.dossier, Next(w, e, m).dossier)
    ensures DossierInv(Next(w, e, m).dossier, m)
  {
    NextDossier(w, e, m);
    AfterSettled(w, e, m);
  }

  /** Readiness is never lost: the active model's score can only be replaced by a complete one. */
  lemma ReadyStays(before: Dossier, after: Dossier, m: Model)
    requires DossierInv(before, m) && DossierInv(after, m) && Settled(before, after) && CommitteeReady(before, m)
    ensures CommitteeReady(after, m)
  {
  }

  lemma ReadStays(r: CommitteeRead, before: Dossier, after: Dossier, m: Model)
    requires DossierInv(before, m) && DossierInv(after, m) && Settled(before, after) && QuietKeeps(before, after)
    requires ReadHolds(r, before, m)
    ensures ReadHolds(r, after, m)
  {
    ReadyStays(before, after, m);
  }

  lemma StepKeepsReviews(w: World, e: Event, m: Model)
    requires Inv(w, m)
    ensures forall r :: r in Next(w, e, m).seen ==> ReviewHolds(r, Next(w, e, m).dossier, m, false)
    ensures forall r :: r in Next(w, e, m).checked ==> ReviewHolds(r, Next(w, e, m).dossier, m, true)
  {
    StepSettled(w, e, m);
    var after := Next(w, e, m);
    if CommitteeReady(w.dossier, m) {
      ReadyStays(w.dossier, after.dossier, m);
    }
    forall r | r in after.checked ensures ReviewHolds(r, after.dossier, m, true) {
      if r in w.checked {
        assert ReviewHolds(r, w.dossier, m, true);
      } else {
        assert ReviewHolds(r, w.dossier, m, false);
      }
    }
  }

  lemma StepKeepsAgenda(w: World, e: Event, m: Model)
    requires Inv(w, m)
    ensures forall r :: r in Next(w, e, m).agenda ==> ReadHolds(r, Next(w, e, m).dossier, m)
  {
    StepSettled(w, e, m);
    var after := Next(w, e, m);
    forall r | r in after.agenda ensures ReadHolds(r, after.dossier, m) {
      if r in w.agenda {
        ReadStays(r, w.dossier, after.dossier, m);
      }
    }
  }

  lemma StepKeepsApproval(w: World, e: Event, m: Model)
    requires Inv(w, m)
    ensures ApprovalHolds(Next(w, e, m))
  {
    StepSettled(w, e, m);
    if w.dossier.statut != Approuve && Next(w, e, m).dossier.statut == Approuve {
      OnlyTheCommitteeApproves(w, e, m);
      assert ReadHolds(e.read, w.dossier, m);
    }
  }

  lemma OnlyTheCommitteeApproves(w: World, e: Event, m: Model)
    requires Inv(w, m) && w.dossier.statut != Approuve && Next(w, e, m).dossier.statut == Approuve
    ensures e.CommitteeCommits? && e.read in w.agenda && w.dossier.statut == PretComite
    ensures e.read.input.decision == Approuve
  {
    if WriteOf(w, e, m).Some? {
      WriteOfIsIssuable(w, e, m);
    }
  }

  /** Only the agent ever scores. */
  lemma StepKeepsScorers(w: World, e: Event, m: Model)
    requires Inv(w, m)
    ensures forall user :: user in Next(w, e, m).scorers ==> Next(w, e, m).dossier.agent == Some(user)
  {
    StepSettled(w, e, m);
  }

  lemma StepInv(w: World, e: Event, m: Model)
    requires Inv(w, m)
    ensures Inv(Next(w, e, m), m)
  {
    StepSettled(w, e, m);
    StepKeepsReviews(w, e, m);
    StepKeepsAgenda(w, e, m);
    StepKeepsScorers(w, e, m);
    StepKeepsApproval(w, e, m);
  }

  lemma {:induction false} ContinueInv(w: World, rest: seq<Event>, m: Model)
    requires Inv(w, m)
    ensures Inv(Continue(w, rest, m), m)
  {
    if rest != [] {
      ContinueInv(w, rest[..|rest| - 1], m);
      StepInv(Continue(w, rest[..|rest| - 1], m), rest[|rest| - 1], m);
    }
  }

  lemma RunInv(d: Dossier, events: seq<Event>, m: Model)
    requires Inv(Start(d), m)
    ensures Inv(Replay(d, events, m), m)
  {
    ContinueInv(Start(d), events, m);
  }

  /**
   Whatever the services' stale reads, the history is an unbroken path of permitted moves from
   BROUILLON to the current status, the agent is absent exactly in BROUILLON and SOUMIS, every move of the review was
   made by that agent, and every move of the committee has its decision.
   */
  lemma HistoryIsAPath(owner: nat, programme: nat, montant: nat, events: seq<Event>, m: Model)
    ensures var d := Replay(NewDossier(owner, programme, montant), events, m).dossier;
            && UnbrokenPath(d.history, d.statut)
            && Assigned(d) && Authored(d) && DecisionsFollow(d)
            && (forall i :: 0 <= i < |d.history| ==> d.history[i].from !in {Approuve, Rejete})
  {
    RunInv(NewDossier(owner, programme, montant), events, m);
  }

  /**
   A dossier before the committee has a score for the active model with one detail for each of its criteria, although
   readiness was checked on an earlier read, by counting only.
   */
  lemma CommitteeSeesCompleteScores(owner: nat, programme: nat, montant: nat, events: seq<Event>, m: Model)
    ensures var d := Replay(NewDossier(owner, programme, montant), events, m).dossier;
            d.statut == PretComite ==> m.id in d.scores && Complete(d.scores[m.id], m) && m.criteres != []
  {
    RunInv(NewDossier(owner, programme, montant), events, m);
  }

  /**
   An approved dossier carries exactly one approval, its last decision, on valid terms; and within the requested amount
   whenever the history had not grown between the committee's read and its update.
   */
  lemma ApprovalWithinRequest(owner: nat, programme: nat, montant: nat, events: seq<Event>, m: Model)
    ensures var w := Replay(NewDossier(owner, programme, montant), events, m);
            Decided(w.dossier) && ApprovalHolds(w)
  {
    RunInv(NewDossier(owner, programme, montant), events, m);
  }

  lemma SettledTransitive(a: Dossier, b: Dossier, c: Dossier)
    requires Settled(a, b) && Settled(b, c)
    ensures Settled(a, c)
  {
  }

  /**
   The assigned agent never changes, APPROUVE and REJETE are final (a late score save is the only write
   that still lands), and after submission the programme and its locked rules stay.
   */
  lemma {:induction false} RunSettled(d: Dossier, events: seq<Event>, i: nat, m: Model)
    requires Inv(Start(d), m) && i <= |events|
    ensures Settled(Replay(d, events[..i], m).dossier, Replay(d, events, m).dossier)
  {
    if i == |events| {
      assert events[..i] == events;
      SettledItself(Replay(d, events, m).dossier);
    } else {
      var front := events[..|events| - 1];
      assert front[..i] == events[..i];
      RunSettled(d, front, i, m);
      RunInv(d, front, m);
      StepSettled(Replay(d, front, m), events[|events| - 1], m);
      SettledTransitive(Replay(d, events[..i], m).dossier, Replay(d, front, m).dossier, Replay(d, events, m).dossier);
    }
  }

  // ---------------------------------------------------------------------------------------------
  // When a decision validated on an earlier read stays within the request
  // ---------------------------------------------------------------------------------------------

  lemma {:induction false} ContinueFurther(w: World, first: seq<Event>, second: seq<Event>, m: Model)
    ensures Continue(w, first + second, m) == Continue(Continue(w, first, m), second, m)
  {
    if second == [] {
      assert first + second == first;
    } else {
      var front := second[..|second| - 1];
      ContinueFurther(w, first, front, m);
      assert (first + second)[..|first + second| - 1] == first + front;
    }
  }

  lemma OneEvent(w: World, e: Event, m: Model)
    ensures Continue(w, [e], m) == Next(w, e, m)
  {
    assert [e][..0] == [];
  }

  /** A kept read is still kept, however the run goes on. */
  lemma {:induction false} AgendaKept(w: World, rest: seq<Event>, m: Model)
    ensures w.agenda <= Continue(w, rest, m).agenda
  {
    if rest != [] {
      AgendaKept(w, rest[..|rest| - 1], m);
    }
  }

  lemma ReadKept(w: World, rest: seq<Event>, m: Model, r: CommitteeRead)
    requires Inv(w, m) && r in w.agenda
    ensures Inv(Continue(w, rest, m), m) && r in Continue(w, rest, m).agenda
    ensures ReadHolds(r, Continue(w, rest, m).dossier, m)
  {
    AgendaKept(w, rest, m);
    ContinueInv(w, rest, m);
  }

  /** Three events in a row. */
  lemma ThreeEvents(w: World, e1: Event, e2: Event, e3: Event, m: Model)
    ensures Continue(w, [e1, e2, e3], m) == Next(Next(Next(w, e1, m), e2, m), e3, m)
  {
    ContinueFurther(w, [e1, e2], [e3], m);
    ContinueFurther(w, [e1], [e2], m);
    OneEvent(w, e1, m);
    OneEvent(Next(w, e1, m), e2, m);
    OneEvent(Next(Next(w, e1, m), e2, m), e3, m);
    assert [e1, e2] + [e3] == [e1, e2, e3] && [e1] + [e2] == [e1, e2];
  }

  /** The agent's review: read, check and compare-and-set. */
  lemma ReviewMoves(w: World, m: Model, next: Statut) returns (rest: seq<Event>)
    requires w.dossier.agent.Some? && next in ReviewTransitions(w.dossier.statut) && CommitteeReady(w.dossier, m)
    ensures var after := Continue(w, rest, m).dossier;
            after == w.dossier.(statut := next, history := after.history)
  {
    var r := Review(w.dossier.agent.value, w.dossier.statut, next);
    rest := [ReviewReads(r.user, next), ReviewChecksReady(r), ReviewCommits(r)];
    ThreeEvents(w, rest[0], rest[1], rest[2], m);
  }

  const COMPLEMENT := CommitteeInput(ComplementRequis, None, None, None, None, 3)

  /** The committee asks for a complement: read and update. */
  lemma CommitteeSendsBack(w: World, m: Model) returns (rest: seq<Event>)
    requires w.dossier.statut == PretComite && CommitteeReady(w.dossier, m)
    ensures Continue(w, rest, m).dossier.statut == ComplementRequis
  {
    var read := CommitteeReads(0, COMPLEMENT);
    var commit := CommitteeCommits(CommitteeRead(0, COMPLEMENT, |w.dossier.history|));
    OneEvent(w, read, m);
    OneEvent(Next(w, read, m), commit, m);
    ContinueFurther(w, [read], [commit], m);
    rest := [read] + [commit];
  }

  /** A read was kept and the dossier is not final: it can be brought to COMPLEMENT_REQUIS. */
  lemma ReachComplement(w: World, m: Model, r: CommitteeRead) returns (rest: seq<Event>)
    requires Inv(w, m) && r in w.agenda && w.dossier.statut !in {Approuve, Rejete}
    ensures Continue(w, rest, m).dossier.statut == ComplementRequis
  {
    assert ReadHolds(r, w.dossier, m) && Assigned(w.dossier);
    if w.dossier.statut == PretComite {
      rest := CommitteeSendsBack(w, m);
    } else if w.dossier.statut == EnInstruction {
      rest := ReviewMoves(w, m, ComplementRequis);
    } else {
      rest := [];
    }
  }

  /** The PME lowers its request to the least amount. */
  lemma PmeLowers(w: World, m: Model) returns (rest: seq<Event>)
    requires w.dossier.statut == ComplementRequis
    ensures Continue(w, rest, m).dossier == w.dossier.(montantDemande := MIN_REQUEST)
  {
    var lower := PmeUpdates(w.dossier.owner, None, Some(MIN_REQUEST));
    OneEvent(w, lower, m);
    rest := [lower];
  }

  /** The agent brings the dossier back before the committee. */
  lemma AgentReturns(w: World, m: Model) returns (rest: seq<Event>)
    requires w.dossier.agent.Some? && w.dossier.statut == ComplementRequis && CommitteeReady(w.dossier, m)
    ensures var after := Continue(w, rest, m).dossier;
            after.statut == PretComite && after.montantDemande == w.dossier.montantDemande
  {
    var back := ReviewMoves(w, m, EnInstruction);
    var again := ReviewMoves(Continue(w, back, m), m, PretComite);
    ContinueFurther(w, back, again, m);
    rest := back + again;
  }

  lemma LowerAndReturn(w: World, m: Model, r: CommitteeRead) returns (rest: seq<Event>)
    requires Inv(w, m) && r in w.agenda && w.dossier.statut == ComplementRequis
    ensures var after := Continue(w, rest, m).dossier;
            after.statut == PretComite && after.montantDemande == MIN_REQUEST
  {
    assert ReadHolds(r, w.dossier, m);
    var lower := PmeLowers(w, m);
    var back := AgentReturns(Continue(w, lower, m), m);
    ContinueFurther(w, lower, back, m);
    rest := lower + back;
  }

  lemma CommitLands(w: World, r: CommitteeRead, m: Model)
    requires r in w.agenda && w.dossier.statut == PretComite && r.input.decision == Approuve
    ensures Next(w, CommitteeCommits(r), m).dossier.statut == Approuve
  {
  }

  /**
   As long as the dossier is not final, a kept decision on more than the least amount can be made to approve more than
   is requested: only the status is compared when it lands.
   */
  lemma StaleCommitteeReadOverApproves(w: World, m: Model, r: CommitteeRead) returns (rest: seq<Event>)
    requires Inv(w, m) && r in w.agenda && w.dossier.statut !in {Approuve, Rejete}
    requires r.input.decision == Approuve && r.input.montantApprouve.GetOr(0) > MIN_REQUEST
    ensures var after := Continue(w, rest, m);
            && after.dossier.statut == PretComite && |after.dossier.history| > r.at
            && r.input.montantApprouve.GetOr(0) > after.dossier.montantDemande
            && Next(after, CommitteeCommits(r), m).dossier.statut == Approuve
  {
    var first := ReachComplement(w, m, r);
    ReadKept(w, first, m, r);
    var second := LowerAndReturn(Continue(w, first, m), m, r);
    ContinueFurther(w, first, second, m);
    rest := first + second;
    ReadKept(w, rest, m, r);
    CommitLands(Continue(w, rest, m), r, m);
  }

  /**
   In whatever way the run goes on, committing the kept read `r` while the history has (or has not) grown since it
   approves no more than is then requested.
   */
  ghost predicate WithinWhenCommitted(w: World, m: Model, r: CommitteeRead, grown: bool) {
    forall rest: seq<Event> ::
      var now := Continue(w, rest, m).dossier;
      now.statut == PretComite && (|now.history| > r.at) == grown ==>
        r.input.montantApprouve.GetOr(0) <= now.montantDemande
  }

  /** No request is ever lowered below the least amount. */
  lemma {:induction false} RequestAtLeast(w: World, rest: seq<Event>, m: Model)
    requires w.dossier.montantDemande >= MIN_REQUEST
    ensures Continue(w, rest, m).dossier.montantDemande >= MIN_REQUEST
  {
    if rest != [] {
      var before := Continue(w, rest[..|rest| - 1], m);
      RequestAtLeast(w, rest[..|rest| - 1], m);
      assert DossierAfter(before, rest[|rest| - 1], m).montantDemande >= MIN_REQUEST;
    }
  }

  /**
   From every world that the runs reach: a kept decision stays within the request whenever it lands, if and only if it
   lands on the history it was read on, or approves no more than the least amount there is. Comparing the length of
   the history would be enough; comparing the status is not.
   */
  lemma WithinRequestIffHistoryUnchanged(w: World, m: Model, r: CommitteeRead, grown: bool)
    requires Inv(w, m) && w.dossier.montantDemande >= MIN_REQUEST && r in w.agenda
    requires w.dossier.statut !in {Approuve, Rejete} && r.input.decision == Approuve
    ensures WithinWhenCommitted(w, m, r, grown) <==> !grown || r.input.montantApprouve.GetOr(0) <= MIN_REQUEST
  {
    if grown && r.input.montantApprouve.GetOr(0) > MIN_REQUEST {
      var rest := StaleCommitteeReadOverApproves(w, m, r);
      assert r.input.montantApprouve.GetOr(0) > Continue(w, rest, m).dossier.montantDemande;
    } else {
      forall rest: seq<Event> |
        var now := Continue(w, rest, m).dossier; now.statut == PretComite && (|now.history| > r.at) == grown
        ensures r.input.montantApprouve.GetOr(0) <= Continue(w, rest, m).dossier.montantDemande
      {
        ReadKept(w, rest, m, r);
        RequestAtLeast(w, rest, m);
      }
    }
  }
}
