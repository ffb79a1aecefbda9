/** The weighted score of a dossier, over reals with the rounding of the contributions and of the total. */
module Scoring {
  import opened Common

  datatype Criterion = Criterion(code: string, poids: real, scoreMax: real)

  datatype Answer = Answer(code: string, scoreObtenu: real)

  datatype Detail = Detail(code: string, scoreObtenu: real, contribution: real)

  datatype NiveauRisque = Faible | Modere | Eleve

  datatype Recommandation = Favorable | FavorableSousConditions | Defavorable

  datatype Score = Score(
    scoreTotal: real, niveauRisque: NiveauRisque, recommandation: Recommandation, details: seq<Detail>)

  datatype Error =
    | NoCriteria | NotAllAnswered | DuplicateCode | WeightNotPositive
    | Missing(code: string) | OutOfRange(code: string)

  /** To two decimals, halves up. */
  function Round2(x: real): real {
    (x * 100.0 + 0.5).Floor as real / 100.0
  }

  /** To four decimals, halves up. */
  function Round4(x: real): real {
    (x * 10000.0 + 0.5).Floor as real / 10000.0
  }

  function Classify(score: real): NiveauRisque {
    if score >= 75.0 then Faible else if score >= 50.0 then Modere else Eleve
  }

  function Recommend(score: real): Recommandation {
    if score >= 75.0 then Favorable else if score >= 50.0 then FavorableSousConditions else Defavorable
  }

  function TotalWeight(criteria: seq<Criterion>): real {
    if criteria == [] then 0.0 else TotalWeight(criteria[..|criteria| - 1]) + criteria[|criteria| - 1].poids
  }

  /** The part of one criterion in a score out of 100, before rounding. */
  function Share(c: Criterion, scoreObtenu: real, weight: real): real
    requires c.scoreMax != 0.0 && weight > 0.0
  {
    (scoreObtenu / c.scoreMax) * c.poids / weight * 100.0
  }

  predicate DistinctCodes(answers: seq<Answer>) {
    forall i, j :: 0 <= i < j < |answers| ==> answers[i].code != answers[j].code
  }

  function AnswerByCode(answers: seq<Answer>): map<string, real> {
    if answers == [] then map[]
    else AnswerByCode(answers[..|answers| - 1])[answers[|answers| - 1].code := answers[|answers| - 1].scoreObtenu]
  }

  /** Each maximum is non-zero, so that no contribution is a division by zero. */
  predicate UsableMaxima(criteria: seq<Criterion>) {
    forall i :: 0 <= i < |criteria| ==> criteria[i].scoreMax != 0.0
  }

  /** The criteria in order, up to the first one that is not answered within its range. */
  function Details(criteria: seq<Criterion>, byCode: map<string, real>, weight: real): Result<seq<Detail>, Error>
    requires UsableMaxima(criteria) && weight > 0.0
  {
    if criteria == [] then Ok([])
    else
      var c := criteria[|criteria| - 1];
      match Details(criteria[..|criteria| - 1], byCode, weight)
      case Err(e) => Err(e)
      case Ok(before) =>
        if c.code !in byCode then Err(Missing(c.code))
        else if byCode[c.code] < 0.0 || byCode[c.code] > c.scoreMax then Err(OutOfRange(c.code))
        else Ok(before + [Detail(c.code, Round2(byCode[c.code]), Round4(Share(c, byCode[c.code], weight)))])
  }

  function SumContributions(details: seq<Detail>): real {
    if details == [] then 0.0 else SumContributions(details[..|details| - 1]) + details[|details| - 1].contribution
  }

  function ScoreOf(criteria: seq<Criterion>, answers: seq<Answer>): Result<Score, Error>
    requires UsableMaxima(criteria)
  {
    if criteria == [] then Err(NoCriteria)
    else if |answers| != |criteria| then Err(NotAllAnswered)
    else if !DistinctCodes(answers) then Err(DuplicateCode)
    else if TotalWeight(criteria) <= 0.0 then Err(WeightNotPositive)
    else match Details(criteria, AnswerByCode(answers), TotalWeight(criteria))
      case Err(e) => Err(e)
      case Ok(details) =>
        var total := Round2(SumContributions(details));
        Ok(Score(total, Classify(total), Recommend(total), details))
  }

  lemma {:induction false} AnsweredCodes(answers: seq<Answer>)
    ensures AnswerByCode(answers).Keys == set i | 0 <= i < |answers| :: answers[i].code
  {
    if answers != [] {
      AnsweredCodes(answers[..|answers| - 1]);
    }
  }

  /** The Map that finds repeated codes while it is filled. */
  method CalculateScore(criteria: seq<Criterion>, answers: seq<Answer>) returns (r: Result<Score, Error>)
    requires UsableMaxima(criteria)
    ensures r == ScoreOf(criteria, answers)
  {
    if |criteria| == 0 {
      return Err(NoCriteria);
    }
    if |answers| != |criteria| {
      return Err(NotAllAnswered);
    }
    var answerByCode: map<string, real> := map[];
    for i := 0 to |answers|
      invariant DistinctCodes(answers[..i])
      invariant answerByCode == AnswerByCode(answers[..i])
    {
      var answer := answers[i];
      AnsweredCodes(answers[..i]);
      if answer.code in answerByCode {
        return Err(DuplicateCode);
      }
      answerByCode := answerByCode[answer.code := answer.scoreObtenu];
      assert answers[..i + 1][..i] == answers[..i];
    }
    assert answers[..|answers|] == answers;
    var totalWeight := TotalWeight(criteria);
    if totalWeight <= 0.0 {
      return Err(WeightNotPositive);
    }
    var details := Details(criteria, answerByCode, totalWeight);
    if details.Err? {
      return Err(details.error);
    }
    var scoreTotal := Round2(SumContributions(details.value));
    return Ok(Score(scoreTotal, Classify(scoreTotal), Recommend(scoreTotal), details.value));
  }

  // ---- What a success means ---------------------------------------------------------------------

  /** What the tables demand of a scoring model. */
  predicate ValidModel(criteria: seq<Criterion>) {
    && (forall i :: 0 <= i < |criteria| ==> criteria[i].scoreMax > 0.0 && criteria[i].poids >= 0.0)
    && (forall i, j :: 0 <= i < j < |criteria| ==> criteria[i].code != criteria[j].code)
  }

  predicate InRange(c: Criterion, byCode: map<string, real>) {
    c.code in byCode && 0.0 <= byCode[c.code] <= c.scoreMax
  }

  predicate AllInRange(criteria: seq<Criterion>, byCode: map<string, real>) {
    forall i :: 0 <= i < |criteria| ==> InRange(criteria[i], byCode)
  }

  /** Details exist exactly when each criterion is answered within its range, and they follow the criteria. */
  lemma {:induction false} DetailsFollow(criteria: seq<Criterion>, byCode: map<string, real>, weight: real)
    requires UsableMaxima(criteria) && weight > 0.0
    ensures var r := Details(criteria, byCode, weight);
            && (r.Ok? <==> AllInRange(criteria, byCode))
            && (r.Ok? ==> |r.value| == |criteria| && forall i :: 0 <= i < |criteria| ==>
                  && InRange(criteria[i], byCode)
                  && r.value[i].code == criteria[i].code
                  && r.value[i].scoreObtenu == Round2(byCode[criteria[i].code])
                  && r.value[i].contribution == Round4(Share(criteria[i], byCode[criteria[i].code], weight)))
  {
    if criteria != [] {
      var n := |criteria| - 1;
      DetailsFollow(criteria[..n], byCode, weight);
      assert forall i :: 0 <= i < n ==> criteria[..n][i] == criteria[i];
      assert AllInRange(criteria, byCode) <==> AllInRange(criteria[..n], byCode) && InRange(criteria[n], byCode);
    }
  }

  /** The class and the recommendation are those of the total: 75 and 50 are the least totals of the upper two. */
  lemma ClassOfTheTotal(criteria: seq<Criterion>, answers: seq<Answer>)
    requires UsableMaxima(criteria) && ScoreOf(criteria, answers).Ok?
    ensures var score := ScoreOf(criteria, answers).value;
            && (score.niveauRisque == Faible <==> score.scoreTotal >= 75.0)
            && (score.niveauRisque == Modere <==> 50.0 <= score.scoreTotal < 75.0)
            && (score.niveauRisque == Eleve <==> score.scoreTotal < 50.0)
            && (score.recommandation == Favorable <==> score.niveauRisque == Faible)
            && (score.recommandation == FavorableSousConditions <==> score.niveauRisque == Modere)
            && (score.recommandation == Defavorable <==> score.niveauRisque == Eleve)
  {
  }

  lemma {:induction false} AnswerIsByItsCode(answers: seq<Answer>, i: nat)
    requires DistinctCodes(answers) && i < |answers|
    ensures answers[i].code in AnswerByCode(answers)
    ensures AnswerByCode(answers)[answers[i].code] == answers[i].scoreObtenu
  {
    if i < |answers| - 1 {
      AnswerIsByItsCode(answers[..|answers| - 1], i);
    }
  }

  /** `part * whole` is `weighted`, up to the rounding of `part` to four decimals. */
  predicate RoundedPart(part: real, weighted: real, whole: real) {
    -0.00005 * whole <= part * whole - weighted <= 0.00005 * whole
  }

  /** The detail is of this criterion and this answer: the marks rounded, and the weighted part of a hundred. */
  predicate DetailOf(d: Detail, c: Criterion, a: Answer, weight: real) {
    && d.code == c.code == a.code && 0.0 <= a.scoreObtenu <= c.scoreMax
    && -0.005 <= d.scoreObtenu - a.scoreObtenu <= 0.005
    && RoundedPart(d.contribution, 100.0 * a.scoreObtenu * c.poids, c.scoreMax * weight)
  }

  lemma ShareIsWeighted(c: Criterion, scoreObtenu: real, weight: real)
    requires c.scoreMax > 0.0 && weight > 0.0
    ensures Share(c, scoreObtenu, weight) * (c.scoreMax * weight) == 100.0 * scoreObtenu * c.poids
  {
    var q := scoreObtenu / c.scoreMax;
    assert q * c.scoreMax == scoreObtenu;
    var part := q * c.poids / weight;
    assert part * weight == q * c.poids;
    assert part * 100.0 * (c.scoreMax * weight) == (part * weight) * c.scoreMax * 100.0;
    assert q * c.poids * c.scoreMax == (q * c.scoreMax) * c.poids;
  }

  lemma PartIsRounded(part: real, share: real, weighted: real, whole: real)
    requires whole >= 0.0 && -0.00005 <= part - share <= 0.00005 && share * whole == weighted
    ensures RoundedPart(part, weighted, whole)
  {
    ProductsInOrder(part - share, 0.00005, whole);
    ProductsInOrder(-0.00005, part - share, whole);
    assert (part - share) * whole == part * whole - weighted;
  }

  lemma RoundingErrors(x: real)
    ensures -0.005 <= Round2(x) - x <= 0.005 && -0.00005 <= Round4(x) - x <= 0.00005
  {
  }

  lemma DetailFits(c: Criterion, a: Answer, weight: real)
    requires c.scoreMax > 0.0 && weight > 0.0 && c.code == a.code && 0.0 <= a.scoreObtenu <= c.scoreMax
    ensures DetailOf(Detail(c.code, Round2(a.scoreObtenu), Round4(Share(c, a.scoreObtenu, weight))), c, a, weight)
  {
    var share := Share(c, a.scoreObtenu, weight);
    ShareIsWeighted(c, a.scoreObtenu, weight);
    RoundingErrors(a.scoreObtenu);
    RoundingErrors(share);
    ProductsInOrder(0.0, c.scoreMax, weight);
    PartIsRounded(Round4(share), share, 100.0 * a.scoreObtenu * c.poids, c.scoreMax * weight);
  }

  /** Each criterion has its detail, of the one answer to it. */
  lemma DetailsAreOfTheAnswers(criteria: seq<Criterion>, answers: seq<Answer>, i: nat) returns (j: nat)
    requires UsableMaxima(criteria) && ValidModel(criteria) && ScoreOf(criteria, answers).Ok? && i < |criteria|
    ensures j < |answers| && i < |ScoreOf(criteria, answers).value.details|
    ensures DetailOf(ScoreOf(criteria, answers).value.details[i], criteria[i], answers[j], TotalWeight(criteria))
  {
    var byCode, weight := AnswerByCode(answers), TotalWeight(criteria);
    DetailsFollow(criteria, byCode, weight);
    assert InRange(criteria[i], byCode);
    AnsweredCodes(answers);
    assert criteria[i].code in byCode.Keys;
    j :| 0 <= j < |answers| && answers[j].code == criteria[i].code;
    AnswerIsByItsCode(answers, j);
    DetailFits(criteria[i], answers[j], weight);
  }

  /** A refusal names what is wrong with the model or with the answers. */
  lemma {:induction false} RefusalTells(criteria: seq<Criterion>, answers: seq<Answer>)
    requires UsableMaxima(criteria) && ScoreOf(criteria, answers).Err?
    ensures match ScoreOf(criteria, answers).error
            case NoCriteria => criteria == []
            case NotAllAnswered => criteria != [] && |answers| != |criteria|
            case DuplicateCode =>
              exists i, j :: 0 <= i < j < |answers| && answers[i].code == answers[j].code
            case WeightNotPositive => TotalWeight(criteria) <= 0.0
            case Missing(code) =>
              && (exists i :: 0 <= i < |criteria| && criteria[i].code == code)
              && forall j :: 0 <= j < |answers| ==> answers[j].code != code
            case OutOfRange(code) =>
              exists i, j ::
                && 0 <= i < |criteria| && 0 <= j < |answers| && criteria[i].code == answers[j].code == code
                && !(0.0 <= answers[j].scoreObtenu <= criteria[i].scoreMax)
  {
    if DistinctCodes(answers) && |answers| == |criteria| > 0 && TotalWeight(criteria) > 0.0 {
      AnsweredCodes(answers);
      FirstBadDetail(criteria, AnswerByCode(answers), TotalWeight(criteria));
      if ScoreOf(criteria, answers).error.OutOfRange? {
        var code := ScoreOf(criteria, answers).error.code;
        assert code in AnswerByCode(answers).Keys;
        var j :| 0 <= j < |answers| && answers[j].code == code;
        AnswerIsByItsCode(answers, j);
      }
    }
  }

  lemma {:induction false} FirstBadDetail(criteria: seq<Criterion>, byCode: map<string, real>, weight: real)
    requires UsableMaxima(criteria) && weight > 0.0 && Details(criteria, byCode, weight).Err?
    ensures match Details(criteria, byCode, weight).error
            case Missing(code) => code !in byCode && exists i :: 0 <= i < |criteria| && criteria[i].code == code
            case OutOfRange(code) =>
              code in byCode && exists i :: 0 <= i < |criteria| && criteria[i].code == code
                                            && !(0.0 <= byCode[code] <= criteria[i].scoreMax)
            case _ => false
  {
    if criteria != [] {
      var front := criteria[..|criteria| - 1];
      if Details(front, byCode, weight).Err? {
        FirstBadDetail(front, byCode, weight);
        var code := Details(front, byCode, weight).error.code;
        var i :| 0 <= i < |front| && front[i].code == code
                 && (Details(front, byCode, weight).error.OutOfRange? ==> !(0.0 <= byCode[code] <= front[i].scoreMax));
        assert criteria[i].code == code;
      } else {
        assert criteria[|criteria| - 1] in criteria;
      }
    }
  }

  function CriterionCodes(criteria: seq<Criterion>): seq<string> {
    seq(|criteria|, i requires 0 <= i < |criteria| => criteria[i].code)
  }

  function AnswerCodes(answers: seq<Answer>): seq<string> {
    seq(|answers|, i requires 0 <= i < |answers| => answers[i].code)
  }

  function Elements(codes: seq<string>): set<string> {
    set c | c in codes
  }

  lemma {:induction false} CountDistinct(codes: seq<string>)
    requires forall i, j :: 0 <= i < j < |codes| ==> codes[i] != codes[j]
    ensures |Elements(codes)| == |codes|
  {
    if codes != [] {
      var n := |codes| - 1;
      CountDistinct(codes[..n]);
      assert codes == codes[..n] + [codes[n]];
      assert Elements(codes) == Elements(codes[..n]) + {codes[n]};
    }
  }

  lemma SubsetOfSameSize<T>(a: set<T>, b: set<T>)
    requires a <= b && |a| == |b|
    ensures a == b
  {
    assert b == a + (b - a);
  }

  /** As many answers as criteria, none repeated and none missing: the answered codes are exactly the criteria's. */
  lemma AnsweredExactlyTheCriteria(criteria: seq<Criterion>, answers: seq<Answer>)
    requires UsableMaxima(criteria) && ValidModel(criteria) && ScoreOf(criteria, answers).Ok?
    ensures Elements(AnswerCodes(answers)) == Elements(CriterionCodes(criteria))
  {
    var byCode := AnswerByCode(answers);
    var answered, expected := AnswerCodes(answers), CriterionCodes(criteria);
    AnsweredCodes(answers);
    DetailsFollow(criteria, byCode, TotalWeight(criteria));
    forall c | c in Elements(expected) ensures c in Elements(answered) {
      var i :| 0 <= i < |criteria| && expected[i] == c;
      assert InRange(criteria[i], byCode);
      var j :| 0 <= j < |answers| && answers[j].code == c;
      assert answered[j] == c;
    }
    CountDistinct(expected);
    CountDistinct(answered);
    SubsetOfSameSize(Elements(expected), Elements(answered));
  }

  // ---- Rounding -----------------------------------------------------------------------------------

  /** The weighted score without any rounding. */
  function Exact(criteria: seq<Criterion>, byCode: map<string, real>, weight: real): real
    requires UsableMaxima(criteria) && weight > 0.0
    requires AllInRange(criteria, byCode)
  {
    if criteria == [] then 0.0
    else
      var c := criteria[|criteria| - 1];
      Exact(criteria[..|criteria| - 1], byCode, weight) + Share(c, byCode[c.code], weight)
  }

  lemma QuotientsInOrder(a: real, b: real, d: real)
    requires d > 0.0 && a <= b
    ensures a / d <= b / d
  {
    assert b / d - a / d == (b - a) / d;
  }

  lemma ProductsInOrder(a: real, b: real, k: real)
    requires a <= b && k >= 0.0
    ensures a * k <= b * k
  {
    assert b * k - a * k == (b - a) * k;
  }

  lemma ShareMonotone(c: Criterion, low: real, high: real, weight: real)
    requires c.scoreMax > 0.0 && c.poids >= 0.0 && weight > 0.0 && low <= high
    ensures Share(c, low, weight) <= Share(c, high, weight)
  {
    QuotientsInOrder(low, high, c.scoreMax);
    ProductsInOrder(low / c.scoreMax, high / c.scoreMax, c.poids);
    QuotientsInOrder(low / c.scoreMax * c.poids, high / c.scoreMax * c.poids, weight);
  }

  lemma ShareOfBounds(c: Criterion, weight: real)
    requires c.scoreMax > 0.0 && weight > 0.0
    ensures Share(c, 0.0, weight) == 0.0 && Share(c, c.scoreMax, weight) == c.poids / weight * 100.0
  {
    assert c.scoreMax / c.scoreMax == 1.0;
  }

  /** Every share is between nothing and the criterion's weight. */
  lemma {:induction false} ExactWithinWeights(criteria: seq<Criterion>, byCode: map<string, real>, weight: real)
    requires UsableMaxima(criteria) && ValidModel(criteria) && weight > 0.0
    requires AllInRange(criteria, byCode)
    ensures 0.0 <= Exact(criteria, byCode, weight) <= TotalWeight(criteria) / weight * 100.0
  {
    if criteria != [] {
      var n := |criteria| - 1;
      var c := criteria[n];
      ExactWithinWeights(criteria[..n], byCode, weight);
      assert InRange(c, byCode);
      ShareOfBounds(c, weight);
      ShareMonotone(c, 0.0, byCode[c.code], weight);
      ShareMonotone(c, byCode[c.code], c.scoreMax, weight);
      assert (TotalWeight(criteria[..n]) + c.poids) / weight == TotalWeight(criteria[..n]) / weight + c.poids / weight;
    }
  }

  predicate FullMarks(criteria: seq<Criterion>, byCode: map<string, real>) {
    forall i :: 0 <= i < |criteria| ==> criteria[i].code in byCode && byCode[criteria[i].code] == criteria[i].scoreMax
  }

  lemma {:induction false} ExactOfFullMarks(criteria: seq<Criterion>, byCode: map<string, real>, weight: real)
    requires UsableMaxima(criteria) && ValidModel(criteria) && weight > 0.0
    requires AllInRange(criteria, byCode) && FullMarks(criteria, byCode)
    ensures Exact(criteria, byCode, weight) == TotalWeight(criteria) / weight * 100.0
  {
    if criteria != [] {
      var n := |criteria| - 1;
      var c := criteria[n];
      ExactOfFullMarks(criteria[..n], byCode, weight);
      ShareOfBounds(c, weight);
      assert (TotalWeight(criteria[..n]) + c.poids) / weight == TotalWeight(criteria[..n]) / weight + c.poids / weight;
    }
  }

  predicate Within(x: real, y: real, tolerance: real) {
    -tolerance <= x - y <= tolerance
  }

  lemma OneMoreDetail(criteria: seq<Criterion>, byCode: map<string, real>, weight: real)
    requires UsableMaxima(criteria) && weight > 0.0 && criteria != [] && AllInRange(criteria, byCode)
    ensures var n := |criteria| - 1;
            var c := criteria[n];
            var before, details := Details(criteria[..n], byCode, weight), Details(criteria, byCode, weight);
            && AllInRange(criteria[..n], byCode) && InRange(c, byCode) && before.Ok? && details.Ok?
            && SumContributions(details.value)
               == SumContributions(before.value) + Round4(Share(c, byCode[c.code], weight))
  {
    var n := |criteria| - 1;
    DetailsFollow(criteria, byCode, weight);
    DetailsFollow(criteria[..n], byCode, weight);
    assert Details(criteria, byCode, weight).value[..n] == Details(criteria[..n], byCode, weight).value;
  }

  /** Each rounded contribution is off by at most half of its last decimal. */
  lemma {:induction false} ContributionsError(criteria: seq<Criterion>, byCode: map<string, real>, weight: real)
    requires UsableMaxima(criteria) && weight > 0.0 && AllInRange(criteria, byCode)
    ensures var details := Details(criteria, byCode, weight);
            && details.Ok?
            && Within(SumContributions(details.value), Exact(criteria, byCode, weight), 0.00005 * |criteria| as real)
  {
    if criteria != [] {
      ContributionsError(criteria[..|criteria| - 1], byCode, weight);
      OneMoreDetail(criteria, byCode, weight);
    }
  }

  lemma {:induction false} ContributionsNotNegative(criteria: seq<Criterion>, byCode: map<string, real>, weight: real)
    requires UsableMaxima(criteria) && ValidModel(criteria) && weight > 0.0 && AllInRange(criteria, byCode)
    ensures Details(criteria, byCode, weight).Ok? && SumContributions(Details(criteria, byCode, weight).value) >= 0.0
  {
    if criteria != [] {
      var c := criteria[|criteria| - 1];
      ContributionsNotNegative(criteria[..|criteria| - 1], byCode, weight);
      OneMoreDetail(criteria, byCode, weight);
      ShareOfBounds(c, weight);
      ShareMonotone(c, 0.0, byCode[c.code], weight);
    }
  }

  lemma WholeWeight(weight: real)
    requires weight > 0.0
    ensures weight / weight * 100.0 == 100.0
  {
  }

  /** The total is off the exact weighted score by the rounding of the total and of each contribution. */
  lemma TotalNearExact(criteria: seq<Criterion>, answers: seq<Answer>)
    requires UsableMaxima(criteria) && ValidModel(criteria) && ScoreOf(criteria, answers).Ok?
    ensures var byCode, weight := AnswerByCode(answers), TotalWeight(criteria);
            && AllInRange(criteria, byCode)
            && 0.0 <= Exact(criteria, byCode, weight) <= 100.0
            && ScoreOf(criteria, answers).value.scoreTotal >= 0.0
            && Within(ScoreOf(criteria, answers).value.scoreTotal, Exact(criteria, byCode, weight),
                      0.005 + 0.00005 * |criteria| as real)
  {
    var byCode, weight := AnswerByCode(answers), TotalWeight(criteria);
    DetailsFollow(criteria, byCode, weight);
    ExactWithinWeights(criteria, byCode, weight);
    WholeWeight(weight);
    ContributionsError(criteria, byCode, weight);
    ContributionsNotNegative(criteria, byCode, weight);
  }

  /** The total is the rounded sum of contributions, which is near the exact score. */
  lemma TotalIsRoundedSum(criteria: seq<Criterion>, answers: seq<Answer>)
    requires UsableMaxima(criteria) && ValidModel(criteria) && ScoreOf(criteria, answers).Ok?
    ensures var byCode, weight := AnswerByCode(answers), TotalWeight(criteria);
            && AllInRange(criteria, byCode) && Details(criteria, byCode, weight).Ok?
            && var sum := SumContributions(Details(criteria, byCode, weight).value);
               && ScoreOf(criteria, answers).value.scoreTotal == Round2(sum)
               && Within(sum, Exact(criteria, byCode, weight), 0.00005 * |criteria| as real)
  {
    var byCode, weight := AnswerByCode(answers), TotalWeight(criteria);
    DetailsFollow(criteria, byCode, weight);
    ContributionsError(criteria, byCode, weight);
  }

  lemma RoundedNearHundred(sum: real, exact: real, n: nat)
    requires n < 100 && exact <= 100.0 && Within(sum, exact, 0.00005 * n as real)
    ensures Round2(sum) <= 100.0 && (exact == 100.0 ==> Round2(sum) == 100.0)
  {
    assert 0.00005 * n as real < 0.005;
  }

  lemma ExactOfFullModel(criteria: seq<Criterion>, byCode: map<string, real>)
    requires UsableMaxima(criteria) && ValidModel(criteria) && TotalWeight(criteria) > 0.0
    requires AllInRange(criteria, byCode) && FullMarks(criteria, byCode)
    ensures Exact(criteria, byCode, TotalWeight(criteria)) == 100.0
  {
    ExactOfFullMarks(criteria, byCode, TotalWeight(criteria));
    WholeWeight(TotalWeight(criteria));
  }

  /** With fewer than a hundred criteria the rounding of contributions never shows in the total. */
  lemma TotalAtMostHundred(criteria: seq<Criterion>, answers: seq<Answer>)
    requires UsableMaxima(criteria) && ValidModel(criteria) && ScoreOf(criteria, answers).Ok? && |criteria| < 100
    ensures var total := ScoreOf(criteria, answers).value.scoreTotal;
            && 0.0 <= total <= 100.0
            && (FullMarks(criteria, AnswerByCode(answers)) ==> total == 100.0)
  {
    var byCode, weight := AnswerByCode(answers), TotalWeight(criteria);
    TotalNearExact(criteria, answers);
    TotalIsRoundedSum(criteria, answers);
    var sum, exact := SumContributions(Details(criteria, byCode, weight).value), Exact(criteria, byCode, weight);
    RoundedNearHundred(sum, exact, |criteria|);
    if FullMarks(criteria, byCode) {
      ExactOfFullModel(criteria, byCode);
    }
  }

  /** What the table of the details demands: nothing negative, and no criterion twice. */
  predicate Storable(score: Score) {
    && (forall i :: 0 <= i < |score.details| ==>
          score.details[i].scoreObtenu >= 0.0 && score.details[i].contribution >= 0.0)
    && (forall i, j :: 0 <= i < j < |score.details| ==> score.details[i].code != score.details[j].code)
  }

  lemma DetailNotNegative(c: Criterion, scoreObtenu: real, weight: real)
    requires c.scoreMax > 0.0 && c.poids >= 0.0 && weight > 0.0 && scoreObtenu >= 0.0
    ensures Round2(scoreObtenu) >= 0.0 && Round4(Share(c, scoreObtenu, weight)) >= 0.0
  {
    ShareOfBounds(c, weight);
    ShareMonotone(c, 0.0, scoreObtenu, weight);
  }

  /** Whatever is scored, its details can be saved. */
  lemma ScoreIsStorable(criteria: seq<Criterion>, answers: seq<Answer>)
    requires UsableMaxima(criteria) && ValidModel(criteria) && ScoreOf(criteria, answers).Ok?
    ensures Storable(ScoreOf(criteria, answers).value)
  {
    var byCode, weight := AnswerByCode(answers), TotalWeight(criteria);
    DetailsFollow(criteria, byCode, weight);
    var details := ScoreOf(criteria, answers).value.details;
    forall i | 0 <= i < |details| ensures details[i].scoreObtenu >= 0.0 && details[i].contribution >= 0.0 {
      assert InRange(criteria[i], byCode);
      DetailNotNegative(criteria[i], byCode[criteria[i].code], weight);
    }
  }

  // ---- Raising an answer ----------------------------------------------------------------------------

  function Rank(niveau: NiveauRisque): nat {
    match niveau
    case Faible => 0
    case Modere => 1
    case Eleve => 2
  }

  predicate AnswersAtLeast(criteria: seq<Criterion>, low: map<string, real>, high: map<string, real>)
    requires AllInRange(criteria, low) && AllInRange(criteria, high)
  {
    forall i :: 0 <= i < |criteria| ==> low[criteria[i].code] <= high[criteria[i].code]
  }

  lemma FloorsInOrder(x: real, y: real)
    requires x <= y
    ensures x.Floor <= y.Floor
  {
    assert x.Floor as real < (y.Floor + 1) as real;
  }

  lemma RoundingsInOrder(x: real, y: real)
    requires x <= y
    ensures Round4(x) <= Round4(y) && Round2(x) <= Round2(y)
  {
    FloorsInOrder(x * 10000.0 + 0.5, y * 10000.0 + 0.5);
    FloorsInOrder(x * 100.0 + 0.5, y * 100.0 + 0.5);
  }

  /** The rounded contributions summed, when all criteria are answered. */
  function Contributions(criteria: seq<Criterion>, byCode: map<string, real>, weight: real): real
    requires UsableMaxima(criteria) && weight > 0.0 && AllInRange(criteria, byCode)
  {
    DetailsFollow(criteria, byCode, weight);
    SumContributions(Details(criteria, byCode, weight).value)
  }

  lemma {:induction false} ContributionsMonotone(
    criteria: seq<Criterion>, low: map<string, real>, high: map<string, real>, weight: real)
    requires UsableMaxima(criteria) && ValidModel(criteria) && weight > 0.0
    requires AllInRange(criteria, low) && AllInRange(criteria, high) && AnswersAtLeast(criteria, low, high)
    ensures Contributions(criteria, low, weight) <= Contributions(criteria, high, weight)
  {
    if criteria != [] {
      var n := |criteria| - 1;
      var c := criteria[n];
      assert AllInRange(criteria[..n], low) && AllInRange(criteria[..n], high);
      assert AnswersAtLeast(criteria[..n], low, high);
      ContributionsMonotone(criteria[..n], low, high, weight);
      OneMoreDetail(criteria, low, weight);
      OneMoreDetail(criteria, high, weight);
      ShareMonotone(c, low[c.code], high[c.code], weight);
      RoundingsInOrder(Share(c, low[c.code], weight), Share(c, high[c.code], weight));
    }
  }

  /** Higher answers never lower the total nor worsen the risk class, in spite of the rounding. */
  lemma RaisingNeverLowers(criteria: seq<Criterion>, low: seq<Answer>, high: seq<Answer>)
    requires UsableMaxima(criteria) && ValidModel(criteria)
    requires ScoreOf(criteria, low).Ok? && ScoreOf(criteria, high).Ok?
    requires AllInRange(criteria, AnswerByCode(low)) && AllInRange(criteria, AnswerByCode(high))
    requires AnswersAtLeast(criteria, AnswerByCode(low), AnswerByCode(high))
    ensures var before, after := ScoreOf(criteria, low).value, ScoreOf(criteria, high).value;
            before.scoreTotal <= after.scoreTotal && Rank(after.niveauRisque) <= Rank(before.niveauRisque)
  {
    var weight := TotalWeight(criteria);
    ContributionsMonotone(criteria, AnswerByCode(low), AnswerByCode(high), weight);
    RoundingsInOrder(Contributions(criteria, AnswerByCode(low), weight),
                     Contributions(criteria, AnswerByCode(high), weight));
  }

  // ---- A hundred criteria -----------------------------------------------------------------------------

  /** In every model of `n` criteria, full marks give exactly 100. */
  ghost predicate FullMarksGiveHundred(n: nat) {
    forall criteria: seq<Criterion>, answers: seq<Answer> ::
      && |criteria| == n && UsableMaxima(criteria) && ValidModel(criteria)
      && ScoreOf(criteria, answers).Ok? && FullMarks(criteria, AnswerByCode(answers))
      ==> ScoreOf(criteria, answers).value.scoreTotal == 100.0
  }

  function Code(i: nat): (s: string)
    ensures |s| == i
  {
    seq(i, _ => 'x')
  }

  /** Fifty weights of 19.999 and fifty of 20.001, of which every contribution is rounded up; the others are 0. */
  function SharpCriterion(i: nat): Criterion {
    Criterion(Code(i), if i < 50 then 19.999 else if i < 100 then 20.001 else 0.0, 1.0)
  }

  function SharpModel(n: nat): seq<Criterion> {
    if n == 0 then [] else SharpModel(n - 1) + [SharpCriterion(n - 1)]
  }

  function SharpAnswers(n: nat): seq<Answer> {
    if n == 0 then [] else SharpAnswers(n - 1) + [Answer(Code(n - 1), 1.0)]
  }

  lemma {:induction false} SharpRows(n: nat)
    ensures |SharpModel(n)| == n && |SharpAnswers(n)| == n
    ensures forall i :: 0 <= i < n ==>
              SharpModel(n)[i] == SharpCriterion(i) && SharpAnswers(n)[i] == Answer(Code(i), 1.0)
  {
    if n > 0 {
      SharpRows(n - 1);
    }
  }

  lemma {:induction false} SharpWeight(n: nat)
    ensures TotalWeight(SharpModel(n)) ==
            if n <= 50 then 19.999 * n as real
            else if n <= 100 then 999.95 + 20.001 * (n - 50) as real else 2000.0
  {
    if n > 0 {
      SharpWeight(n - 1);
      assert SharpModel(n)[..|SharpModel(n)| - 1] == SharpModel(n - 1);
    }
  }

  lemma {:induction false} SharpMarks(n: nat)
    ensures forall i :: 0 <= i < n ==>
              Code(i) in AnswerByCode(SharpAnswers(n)) && AnswerByCode(SharpAnswers(n))[Code(i)] == 1.0
  {
    if n > 0 {
      SharpMarks(n - 1);
      var answers := SharpAnswers(n);
      assert answers[..|answers| - 1] == SharpAnswers(n - 1);
    }
  }

  lemma SharpShare(i: nat)
    ensures Round4(Share(SharpCriterion(i), 1.0, 2000.0)) == if i < 50 then 1.0 else if i < 100 then 1.0001 else 0.0
  {
  }

  lemma SharpInRange(n: nat, byCode: map<string, real>)
    requires forall i :: 0 <= i < n ==> Code(i) in byCode && byCode[Code(i)] == 1.0
    ensures UsableMaxima(SharpModel(n)) && AllInRange(SharpModel(n), byCode)
  {
    SharpRows(n);
    forall i | 0 <= i < n ensures SharpModel(n)[i].code in byCode && InRange(SharpModel(n)[i], byCode) {
      assert SharpModel(n)[i] == SharpCriterion(i);
    }
  }

  lemma {:induction false} SharpContributions(n: nat, byCode: map<string, real>)
    requires UsableMaxima(SharpModel(n)) && AllInRange(SharpModel(n), byCode)
    requires forall i :: 0 <= i < n ==> Code(i) in byCode && byCode[Code(i)] == 1.0
    ensures Contributions(SharpModel(n), byCode, 2000.0) ==
            if n <= 50 then n as real
            else if n <= 100 then 50.0 + 1.0001 * (n - 50) as real else 100.005
  {
    if n > 0 {
      var criteria := SharpModel(n);
      assert criteria[..|criteria| - 1] == SharpModel(n - 1);
      SharpInRange(n - 1, byCode);
      SharpContributions(n - 1, byCode);
      OneMoreDetail(criteria, byCode, 2000.0);
      SharpShare(n - 1);
    }
  }

  lemma SharpCodesDiffer(n: nat)
    ensures |SharpModel(n)| == n && |SharpAnswers(n)| == n
    ensures DistinctCodes(SharpAnswers(n)) && ValidModel(SharpModel(n))
  {
    SharpRows(n);
    var criteria, answers := SharpModel(n), SharpAnswers(n);
    forall i | 0 <= i < n ensures |criteria[i].code| == |answers[i].code| == i {
      assert criteria[i] == SharpCriterion(i) && answers[i] == Answer(Code(i), 1.0);
    }
  }

  lemma SharpModelIsValid(n: nat)
    requires n >= 100
    ensures var criteria, answers := SharpModel(n), SharpAnswers(n);
            && |criteria| == n && UsableMaxima(criteria) && ValidModel(criteria)
            && |answers| == n && DistinctCodes(answers) && TotalWeight(criteria) == 2000.0
            && FullMarks(criteria, AnswerByCode(answers))
  {
    SharpCodesDiffer(n);
    SharpRows(n);
    SharpWeight(n);
    SharpMarks(n);
  }

  lemma SharpTotal(n: nat)
    requires n >= 100
    ensures UsableMaxima(SharpModel(n))
    ensures ScoreOf(SharpModel(n), SharpAnswers(n)).Ok?
    ensures ScoreOf(SharpModel(n), SharpAnswers(n)).value.scoreTotal == 100.01
  {
    SharpModelIsValid(n);
    SharpMarks(n);
    var byCode := AnswerByCode(SharpAnswers(n));
    SharpInRange(n, byCode);
    SharpContributions(n, byCode);
    DetailsFollow(SharpModel(n), byCode, 2000.0);
    assert Round2(100.005) == 100.01;
  }

  /** Full marks give exactly 100 in every model of `n` criteria if and only if `n` is below a hundred. */
  lemma HundredExactIff(n: nat)
    ensures FullMarksGiveHundred(n) <==> n < 100
  {
    if n < 100 {
      forall criteria: seq<Criterion>, answers: seq<Answer> |
        && |criteria| == n && UsableMaxima(criteria) && ValidModel(criteria)
        && ScoreOf(criteria, answers).Ok? && FullMarks(criteria, AnswerByCode(answers))
        ensures ScoreOf(criteria, answers).value.scoreTotal == 100.0
      {
        TotalAtMostHundred(criteria, answers);
      }
    } else {
      SharpModelIsValid(n);
      SharpTotal(n);
    }
  }
}
