/** The four repositories that write dossiers, each write one conditional update over the dossier table. */
module DossierRepositories {
  import opened Common
  import opened Workflow
  import C = Checklist
  import R = ProgrammeRepositories
  import S = Scoring

  type Dossiers = map<nat, Dossier>

  function Commit(t: Dossiers, id: nat, w: Write, effective: Option<RuleVersion>): Dossiers {
    if Matches(t, id, w, effective) then t[id := Apply(t[id], w, effective).value] else t
  }

  predicate Matches(t: Dossiers, id: nat, w: Write, effective: Option<RuleVersion>) {
    id in t && Apply(t[id], w, effective).Some?
  }

  /** What a statement does to the table: nothing, or what it should to the one row that it matches. */
  predicate Effects(before: Dossiers, after: Dossiers, id: nat, w: Write, effective: Option<RuleVersion>, found: bool) {
    && (found <==> id in before && Lands(before[id], w))
    && after.Keys == before.Keys
    && (forall k :: k in before && (k != id || !found) ==> after[k] == before[k])
    && (found ==> Leaves(before[id], w, effective, after[id]))
  }

  lemma CommitMeans(t: Dossiers, id: nat, w: Write, effective: Option<RuleVersion>)
    ensures Effects(t, Commit(t, id, w, effective), id, w, effective, Matches(t, id, w, effective))
  {
    if id in t {
      WriteMeans(t[id], w, effective);
    }
  }

  /** What every run keeps of each dossier: its path, assignment, decisions and scores, and its locked version. */
  ghost predicate AllInv(t: Dossiers, programmes: R.Tables, m: Model) {
    forall id :: id in t ==> DossierInv(t[id], m) && C.Locked(programmes, t[id])
  }

  /** What the services guarantee of a statement before they run it. */
  ghost predicate Guarded(t: Dossiers, id: nat, w: Write, m: Model) {
    && Issuable(w, m)
    && (id in t && w.Transition? && w.next == PretComite ==> CommitteeReady(t[id], m))
  }

  lemma PutInv(t: Dossiers, programmes: R.Tables, id: nat, d: Dossier, m: Model)
    requires AllInv(t, programmes, m) && DossierInv(d, m) && C.Locked(programmes, d)
    ensures AllInv(t[id := d], programmes, m)
  {
  }

  lemma WrittenInv(d: Dossier, programmes: R.Tables, w: Write, now: nat, m: Model)
    requires DossierInv(d, m) && C.Locked(programmes, d) && R.AllInv(programmes, now)
    requires Issuable(w, m) && C.ProgrammeExists(programmes, w)
    requires w.Transition? && w.next == PretComite ==> CommitteeReady(d, m)
    ensures var d' := Written(d, w, C.EffectiveRule(programmes, d.programme, now));
            DossierInv(d', m) && C.Locked(programmes, d')
  {
    WriteKeeps(d, w, C.EffectiveRule(programmes, d.programme, now), m);
    C.WriteKeepsLock(programmes, d, w, now, m);
  }

  lemma CommitIsPut(t: Dossiers, id: nat, w: Write, effective: Option<RuleVersion>)
    requires id in t
    ensures Commit(t, id, w, effective) == t[id := Written(t[id], w, effective)]
  {
  }

  lemma CommitInv(t: Dossiers, programmes: R.Tables, id: nat, w: Write, now: nat, m: Model)
    requires AllInv(t, programmes, m) && R.AllInv(programmes, now)
    requires Guarded(t, id, w, m) && C.ProgrammeExists(programmes, w)
    ensures var effective := if id in t then C.EffectiveRule(programmes, t[id].programme, now) else None;
            AllInv(Commit(t, id, w, effective), programmes, m)
  {
    if id in t {
      var effective := C.EffectiveRule(programmes, t[id].programme, now);
      WrittenInv(t[id], programmes, w, now, m);
      PutInv(t, programmes, id, Written(t[id], w, effective), m);
      CommitIsPut(t, id, w, effective);
    }
  }

  /** Only a submission looks the version in force up. */
  lemma EffectiveOnlyForSubmission(t: Dossiers, id: nat, w: Write, effective: Option<RuleVersion>)
    requires !w.SubmitOwned?
    ensures Commit(t, id, w, effective) == Commit(t, id, w, None)
    ensures Matches(t, id, w, effective) == Matches(t, id, w, None)
  {
  }

  /** A score that the service calculated is never refused by the table of the details. */
  lemma CalculatedIsStorable(score: S.Score, m: Model)
    requires Calculated(score, m)
    ensures S.Storable(score)
  {
    var answers :| S.ScoreOf(m.criteres, answers) == Ok(score);
    S.ScoreIsStorable(m.criteres, answers);
  }

  /** The row that the dynamic SET clause leaves, when it matches; with nothing to set, the owner's row as it is. */
  method Updated(d: Dossier, owner: nat, programme: Option<nat>, montant: Option<nat>) returns (r: Option<Dossier>)
    ensures r == Apply(d, Write.UpdateOwned(owner, programme, montant), None)
  {
    if programme.None? && montant.None? {
      return if d.owner == owner then Some(d) else None;
    }
    // The table demands montant_demande > 0.
    if montant == Some(0) {
      return None;
    }
    var editable := d.statut == Brouillon || (d.statut == ComplementRequis && programme.None?);
    if d.owner != owner || !editable {
      return None;
    }
    var next := d;
    if programme.Some? {
      next := next.(programme := programme.value);
    }
    if montant.Some? {
      next := next.(montantDemande := montant.value);
    }
    return Some(next);
  }

  method Submitted(d: Dossier, owner: nat, user: UserId, effective: Option<RuleVersion>) returns (r: Option<Dossier>)
    ensures r == Apply(d, Write.SubmitOwned(owner, user), effective)
  {
    if d.owner != owner || d.statut != Brouillon {
      return None;
    }
    var next := d.(statut := Soumis, history := d.history + [Move(Brouillon, Soumis, user)]);
    if next.regle.None? {
      next := next.(regle := effective);
    }
    return Some(next);
  }

  method Claimed(d: Dossier, user: UserId) returns (r: Option<Dossier>)
    ensures r == Apply(d, Write.Claim(user), None)
  {
    if d.statut !in {Soumis, EnInstruction, ComplementRequis} || (d.agent.Some? && d.agent.value != user) {
      return None;
    }
    var next := d.(agent := Some(user));
    if d.statut == Soumis {
      next := next.(statut := EnInstruction, history := d.history + [Move(Soumis, EnInstruction, user)]);
    }
    return Some(next);
  }

  method Transitioned(d: Dossier, user: UserId, expected: Statut, next: Statut) returns (r: Option<Dossier>)
    ensures r == Apply(d, Write.Transition(user, expected, next), None)
  {
    if d.agent != Some(user) || d.statut != expected {
      return None;
    }
    return Some(d.(statut := next, history := d.history + [Move(expected, next, user)]));
  }

  method DecidedRow(d: Dossier, user: UserId, input: CommitteeInput) returns (r: Option<Dossier>)
    ensures r == Apply(d, Write.Decide(user, input), None)
  {
    if d.statut != PretComite {
      return None;
    }
    var next := d.(statut := input.decision, history := d.history + [Move(PretComite, input.decision, user)]);
    return Some(next.(decisions := d.decisions + [DecisionOf(input)]));
  }

  /** Programmes moving on leave the dossiers' locked versions published. */
  lemma GrowthKeeps(t: Dossiers, before: R.Tables, after: R.Tables, m: Model)
    requires AllInv(t, before, m) && R.Grows(before, after)
    ensures AllInv(t, after, m)
  {
  }

  class DossierTable {
    const database: R.Database
    /** The active scoring model. */
    const model: Model
    var dossiers: Dossiers
    var nextId: nat

    /** Identifiers to come are unused: all that the statements themselves rely on. */
    ghost predicate Numbered()
      reads this
    {
      forall id :: id in dossiers ==> id < nextId
    }

    ghost predicate Valid()
      reads this, database
    {
      database.Valid() && Numbered() && AllInv(dossiers, database.programmes, model)
    }

    /** Over dossiers that are there already, those that the migrations locked to a version 1 included. */
    constructor (database: R.Database, model: Model, dossiers: Dossiers, nextId: nat)
      requires forall id :: id in dossiers ==> id < nextId
      ensures Numbered() && this.database == database && this.model == model && this.dossiers == dossiers
      ensures database.Valid() && AllInv(dossiers, database.programmes, model) ==> Valid()
    {
      this.database, this.model, this.dossiers, this.nextId := database, model, dossiers, nextId;
    }

    /** What the repositories of the programmes do to their tables leaves the dossiers valid. */
    twostate lemma ProgrammesMoveOn()
      requires old(Valid()) && unchanged(this)
      requires database.Valid() && R.Grows(old(database.programmes), database.programmes)
      ensures Valid()
    {
      GrowthKeeps(dossiers, old(database.programmes), database.programmes, model);
    }

    /** The row that a conditional update leaves, if it matched. */
    method Finish(id: nat, row: Option<Dossier>, ghost w: Write, ghost effective: Option<RuleVersion>)
      returns (found: bool)
      requires Numbered() && id in dossiers && row == Apply(dossiers[id], w, effective)
      modifies this`dossiers
      ensures Numbered() && dossiers == Commit(old(dossiers), id, w, effective)
      ensures found == Matches(old(dossiers), id, w, effective)
      ensures Effects(old(dossiers), dossiers, id, w, effective, found)
    {
      CommitMeans(dossiers, id, w, effective);
      if row.None? {
        return false;
      }
      dossiers := dossiers[id := row.value];
      return true;
    }

    /** A statement other than a submission keeps the invariant, if its service let it through. */
    lemma Keeps(id: nat, w: Write)
      requires !w.SubmitOwned?
      ensures Valid() && Guarded(dossiers, id, w, model) && C.ProgrammeExists(database.programmes, w) ==>
                AllInv(Commit(dossiers, id, w, None), database.programmes, model)
    {
      if Valid() && Guarded(dossiers, id, w, model) && C.ProgrammeExists(database.programmes, w) {
        CommitInv(dossiers, database.programmes, id, w, database.clock, model);
        var effective :=
          if id in dossiers then C.EffectiveRule(database.programmes, dossiers[id].programme, database.clock) else None;
        EffectiveOnlyForSubmission(dossiers, id, w, effective);
      }
    }

    // ---- PME ----------------------------------------------------------------------------------

    /** Refused for a programme that does not exist or an amount of zero. */
    method CreateDraft(owner: nat, programme: nat, montantDemande: nat) returns (id: Option<nat>)
      requires Numbered()
      modifies this
      ensures Numbered() && (old(Valid()) ==> Valid())
      ensures id.Some? <==> programme in database.programmes && montantDemande > 0
      ensures id.None? ==> dossiers == old(dossiers)
      ensures id.Some? ==>
                && id.value !in old(dossiers)
                && dossiers == old(dossiers)[id.value := NewDossier(owner, programme, montantDemande)]
                && var d := dossiers[id.value];
                   && d.owner == owner && d.programme == programme && d.montantDemande == montantDemande
                   && d.statut == Brouillon && d.regle.None? && d.agent.None? && d.history == [] && d.decisions == []
    {
      if programme !in database.programmes || montantDemande == 0 {
        return None;
      }
      id := Some(nextId);
      dossiers := dossiers[nextId := Dossier(owner, programme, None, montantDemande, Brouillon, None, [], [], map[])];
      nextId := nextId + 1;
    }

    /** A programme that does not exist violates the foreign key. */
    method UpdateOwned(id: nat, owner: nat, programme: Option<nat>, montant: Option<nat>) returns (found: bool)
      requires Numbered()
      modifies this`dossiers
      ensures Numbered()
      ensures var w := Write.UpdateOwned(owner, programme, montant);
              && (if C.ProgrammeExists(database.programmes, w)
                  then && found == Matches(old(dossiers), id, w, None) && dossiers == Commit(old(dossiers), id, w, None)
                       && Effects(old(dossiers), dossiers, id, w, None, found)
                  else !found && dossiers == old(dossiers))
              && (old(Valid() && Guarded(dossiers, id, w, model)) ==> Valid())
    {
      if (programme.Some? && programme.value !in database.programmes) || id !in dossiers {
        return false;
      }
      Keeps(id, Write.UpdateOwned(owner, programme, montant));
      var row := Updated(dossiers[id], owner, programme, montant);
      found := Finish(id, row, Write.UpdateOwned(owner, programme, montant), None);
    }

    /** The rule version in force for the dossier's programme. */
    function EffectiveFor(id: nat, now: nat): Option<RuleVersion>
      reads this, database
    {
      if id in dossiers then C.EffectiveRule(database.programmes, dossiers[id].programme, now) else None
    }

    lemma KeepsSubmission(id: nat, w: Write, now: nat)
      requires w.SubmitOwned?
      ensures Valid() && database.clock <= now ==>
                AllInv(Commit(dossiers, id, w, EffectiveFor(id, now)), database.programmes, model)
    {
      if Valid() && database.clock <= now {
        R.AllInvLater(database.programmes, database.clock, now);
        CommitInv(dossiers, database.programmes, id, w, now, model);
      }
    }

    method SubmitOwned(id: nat, owner: nat, user: UserId, now: nat) returns (found: bool)
      requires Numbered()
      modifies this`dossiers
      ensures Numbered() && (old(Valid()) && database.clock <= now ==> Valid())
      ensures found == Matches(old(dossiers), id, Write.SubmitOwned(owner, user), old(EffectiveFor(id, now)))
      ensures dossiers == Commit(old(dossiers), id, Write.SubmitOwned(owner, user), old(EffectiveFor(id, now)))
      ensures Effects(old(dossiers), dossiers, id, Write.SubmitOwned(owner, user), old(EffectiveFor(id, now)), found)
    {
      if id !in dossiers {
        return false;
      }
      KeepsSubmission(id, Write.SubmitOwned(owner, user), now);
      var row := Submitted(dossiers[id], owner, user, EffectiveFor(id, now));
      found := Finish(id, row, Write.SubmitOwned(owner, user), EffectiveFor(id, now));
    }

    // ---- Agent --------------------------------------------------------------------------------

    method Claim(id: nat, user: UserId) returns (found: bool)
      requires Numbered()
      modifies this`dossiers
      ensures var w := Write.Claim(user);
              && Numbered() && (old(Valid() && Guarded(dossiers, id, w, model)) ==> Valid())
              && found == Matches(old(dossiers), id, w, None) && dossiers == Commit(old(dossiers), id, w, None)
              && Effects(old(dossiers), dossiers, id, w, None, found)
    {
      if id !in dossiers {
        return false;
      }
      Keeps(id, Write.Claim(user));
      var row := Claimed(dossiers[id], user);
      found := Finish(id, row, Write.Claim(user), None);
    }

    method Transition(id: nat, user: UserId, expected: Statut, next: Statut) returns (found: bool)
      requires Numbered()
      modifies this`dossiers
      ensures var w := Write.Transition(user, expected, next);
              && Numbered() && (old(Valid() && Guarded(dossiers, id, w, model)) ==> Valid())
              && found == Matches(old(dossiers), id, w, None) && dossiers == Commit(old(dossiers), id, w, None)
              && Effects(old(dossiers), dossiers, id, w, None, found)
    {
      if id !in dossiers {
        return false;
      }
      Keeps(id, Write.Transition(user, expected, next));
      var row := Transitioned(dossiers[id], user, expected, next);
      found := Finish(id, row, Write.Transition(user, expected, next), None);
    }

    // ---- Scoring and committee ----------------------------------------------------------------

    /** Inserts the model's score, or replaces it with all its details; other models' scores stay. */
    method SaveScore(id: nat, modele: nat, score: S.Score) returns (found: bool)
      requires Numbered()
      modifies this`dossiers
      ensures var w := Write.SaveScore(modele, score);
              && Numbered() && (old(Valid() && Guarded(dossiers, id, w, model)) ==> Valid())
              && (if S.Storable(score)
                  then && found == Matches(old(dossiers), id, w, None) && dossiers == Commit(old(dossiers), id, w, None)
                       && Effects(old(dossiers), dossiers, id, w, None, found)
                  else !found && dossiers == old(dossiers))
    {
      if id !in dossiers || !S.Storable(score) {
        return false;
      }
      Keeps(id, Write.SaveScore(modele, score));
      var d := dossiers[id];
      found := Finish(id, Some(d.(scores := d.scores[modele := score])), Write.SaveScore(modele, score), None);
    }

    method Decide(id: nat, user: UserId, input: CommitteeInput) returns (found: bool)
      requires Numbered()
      modifies this`dossiers
      ensures var w := Write.Decide(user, input);
              && Numbered() && (old(Valid() && Guarded(dossiers, id, w, model)) ==> Valid())
              && found == Matches(old(dossiers), id, w, None) && dossiers == Commit(old(dossiers), id, w, None)
              && Effects(old(dossiers), dossiers, id, w, None, found)
    {
      if id !in dossiers {
        return false;
      }
      Keeps(id, Write.Decide(user, input));
      var row := DecidedRow(dossiers[id], user, input);
      found := Finish(id, row, Write.Decide(user, input), None);
    }
  }
}
