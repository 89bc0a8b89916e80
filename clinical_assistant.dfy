/** `ClinicalDecisionSupport`: the static knowledge tables, symptom normalisation,
    the Jaccard differential scorer with its fallback bundle, and the guideline
    lookup. The tables are passed in as parameters; the constants below are the
    tables the constructor loads. */
module ClinicalAssistant {
  import opened Text
  import opened SymptomMatching
  import opened Optional

  // ---------------------------------------------------------------------------
  // Data model

  /** Severity labels that occur in the condition table and the fallback. */
  datatype Urgency = Low | Moderate | Unknown

  /** A condition bundle: condition names with parallel likelihoods. */
  datatype Bundle = Bundle(conditions: seq<string>, urgency: Urgency, likelihood: seq<real>)

  /** `conditions` and `likelihood` are parallel lists. */
  predicate WellFormed(b: Bundle)
  {
    |b.conditions| == |b.likelihood|
  }

  /** Condition table: symptom combination and its bundle, in insertion order. */
  type ConditionsTable = seq<(set<string>, Bundle)>

  /** What `normalize_symptoms` returns. */
  datatype NormalizationResult = NormalizationResult(
    originalInput: string,
    normalizedSymptoms: set<string>,
    symptomCount: nat)

  /** A guideline record, or the placeholder `get_treatment_guidelines` returns for
      an unknown condition. */
  datatype Guideline =
    | Guideline(firstLineTreatment: seq<string>, medications: seq<string>,
                redFlags: seq<string>, followUp: string, duration: string)
    | NoGuideline(message: string, recommendation: string)

  // ---------------------------------------------------------------------------
  // The tables loaded by the constructor

  /** `_load_symptoms_db`. */
  function SymptomsDb(): SymptomTable
  {
    [ ("fever", ["fever", "high temperature", "pyrexia", "febrile", "hot", "burning up"]),
      ("headache", ["headache", "head pain", "cephalgia", "migraine", "head hurts"]),
      ("cough", ["cough", "coughing", "persistent cough", "dry cough", "wet cough"]),
      ("fatigue", ["tired", "fatigue", "exhaustion", "weakness", "worn out", "drained"]),
      ("sore_throat", ["sore throat", "throat pain", "scratchy throat", "throat hurts"]),
      ("runny_nose", ["runny nose", "nasal congestion", "stuffy nose", "blocked nose"]),
      ("body_aches", ["body aches", "muscle pain", "joint pain", "aches", "soreness"]) ]
  }

  /** `_load_conditions_db`; each tuple key becomes the set it stands for. */
  function ConditionsDb(): ConditionsTable
  {
    [ ({"fever", "cough"},
       Bundle(["Upper Respiratory Infection", "Pneumonia", "Bronchitis"], Moderate, [0.6, 0.2, 0.2])),
      ({"fever", "headache"},
       Bundle(["Viral Infection", "Sinusitis", "Meningitis"], Moderate, [0.7, 0.2, 0.1])),
      ({"fever", "cough", "fatigue"},
       Bundle(["Influenza", "COVID-19", "Pneumonia", "Bronchitis"], Moderate, [0.4, 0.3, 0.2, 0.1])),
      ({"cough", "fatigue"},
       Bundle(["Upper Respiratory Infection", "Bronchitis", "Allergies"], Low, [0.5, 0.3, 0.2])) ]
  }

  /** The bundle returned when no table entry scores above zero. */
  function Fallback(): Bundle
  {
    Bundle(["Consult healthcare provider for evaluation"], Unknown, [1.0])
  }

  /** `_load_guidelines_db`. */
  function GuidelinesDb(): map<string, Guideline>
  {
    map[
      "Upper Respiratory Infection" := Guideline(
        ["Rest", "Hydration", "Supportive care"],
        ["Acetaminophen for fever", "Throat lozenges", "Decongestants if needed"],
        ["High fever >101.5\U{00AC}\U{221E}F for >3 days", "Difficulty breathing", "Severe throat pain"],
        "If symptoms worsen or persist beyond 7-10 days",
        "7-10 days typically"),
      "Influenza" := Guideline(
        ["Rest", "Hydration", "Antiviral medications if within 48 hours"],
        ["Oseltamivir (Tamiflu)", "Acetaminophen/Ibuprofen for fever"],
        ["Difficulty breathing", "Chest pain", "Severe dehydration"],
        "Monitor closely, seek care if breathing difficulties",
        "7-14 days typically"),
      "COVID-19" := Guideline(
        ["Isolation", "Rest", "Hydration", "Monitor oxygen levels"],
        ["Acetaminophen for fever", "Consider Paxlovid if high risk"],
        ["Difficulty breathing", "Chest pain", "Confusion", "Bluish lips"],
        "Isolate for 5-10 days, seek immediate care for severe symptoms",
        "5-14 days typically")
    ]
  }

  // ---------------------------------------------------------------------------
  // Symptom normalisation

  /** `normalize_symptoms`: the matched tags as a set, with their count. */
  method NormalizeSymptoms(table: SymptomTable, text: string) returns (r: NormalizationResult)
    ensures r.originalInput == text
    ensures forall tag :: tag in r.normalizedSymptoms <==> TagMatches(table, Lower(text), tag)
    ensures r.symptomCount == |r.normalizedSymptoms|
  {
    var normalized := MatchTags(table, text);
    var tags := set t | t in normalized;
    forall tag ensures tag in tags <==> TagMatches(table, Lower(text), tag) {
      MatchedTagsMembership(table, Lower(text), tag);
    }
    r := NormalizationResult(text, tags, |tags|);
  }

  /** The symptom table has distinct keys and no empty synonym. */
  lemma SymptomsDbWellFormed()
    ensures DistinctKeys(SymptomsDb())
    ensures NonEmptySynonyms(SymptomsDb())
  {
  }

  /** The empty text yields no tag against the loaded table. */
  lemma EmptyTextGivesNoSymptoms()
    ensures forall tag :: !TagMatches(SymptomsDb(), Lower(""), tag)
  {
    SymptomsDbWellFormed();
    EmptyTextNoTags(SymptomsDb());
    forall tag ensures !TagMatches(SymptomsDb(), Lower(""), tag) {
      MatchedTagsMembership(SymptomsDb(), Lower(""), tag);
    }
  }

  /** Synonym `k` of row `i` occurring at `at` makes the row's tag match. */
  lemma SynonymAtMatches(table: SymptomTable, lowered: string, i: nat, k: nat, at: nat)
    requires i < |table| && k < |table[i].1|
    requires at + |table[i].1[k]| <= |lowered| && lowered[at..at + |table[i].1[k]|] == table[i].1[k]
    ensures TagMatches(table, lowered, table[i].0)
  {
    assert OccursAt(lowered, table[i].1[k], at);
  }

  /** The sample sentence "I have been feeling tired with a fever and cough" matches
      the tags fever, cough and fatigue. */
  lemma SampleSentenceMatches()
    ensures TagMatches(SymptomsDb(), Lower("I have been feeling tired with a fever and cough"), "fever")
    ensures TagMatches(SymptomsDb(), Lower("I have been feeling tired with a fever and cough"), "cough")
    ensures TagMatches(SymptomsDb(), Lower("I have been feeling tired with a fever and cough"), "fatigue")
  {
    var text := "I have been feeling tired with a fever and cough";
    assert text[33..38] == "fever";
    LowerSlice(text, 33, 38);
    SynonymAtMatches(SymptomsDb(), Lower(text), 0, 0, 33);
    SampleSentenceCough();
    SampleSentenceTired();
  }

  /** The cough part of `SampleSentenceMatches`: "cough" occurs at index 43. */
  lemma SampleSentenceCough()
    ensures TagMatches(SymptomsDb(), Lower("I have been feeling tired with a fever and cough"), "cough")
  {
    var text := "I have been feeling tired with a fever and cough";
    assert text[43..48] == "cough";
    LowerSlice(text, 43, 48);
    SynonymAtMatches(SymptomsDb(), Lower(text), 2, 0, 43);
  }

  /** The fatigue part of `SampleSentenceMatches`: "tired" occurs at index 20. */
  lemma SampleSentenceTired()
    ensures TagMatches(SymptomsDb(), Lower("I have been feeling tired with a fever and cough"), "fatigue")
  {
    var text := "I have been feeling tired with a fever and cough";
    assert text[20] == 't' && text[21] == 'i' && text[22] == 'r' && text[23] == 'e' && text[24] == 'd';
    assert text[20..25] == "tired";
    LowerSlice(text, 20, 25);
    SynonymAtMatches(SymptomsDb(), Lower(text), 3, 0, 20);
  }

  // ---------------------------------------------------------------------------
  // Differential scoring

  /** A non-negative fraction `num / den` with `den > 0`, compared exactly. */
  datatype Ratio = Ratio(num: nat, den: nat)

  /** `x > y` for fractions, by cross-multiplication. */
  predicate Greater(x: Ratio, y: Ratio)
  {
    x.num * y.den > y.num * x.den
  }

  /** A subset is no larger than its superset, and equally large only when equal. */
  lemma SubsetCard(a: set<string>, b: set<string>)
    requires a <= b
    ensures |a| <= |b|
    ensures |a| == |b| ==> a == b
  {
    assert b == a + (b - a);
    assert a * (b - a) == {};
    if |a| == |b| {
      assert |b - a| == 0;
    }
  }

  /** Jaccard similarity `|a * b| / |a + b|`, and 0 when both sets are empty. */
  function Jaccard(a: set<string>, b: set<string>): (r: Ratio)
    ensures r.den > 0 && r.num <= r.den
    ensures r.num > 0 <==> a * b != {}
    ensures r.num == r.den <==> a == b && a != {}
  {
    var union := a + b;
    var inter := a * b;
    SubsetCard(inter, union);
    assert inter == union ==> a == b by {
      if inter == union {
        assert a <= b && b <= a;
      }
    }
    if |union| > 0 then Ratio(|inter|, |union|) else Ratio(0, 1)
  }

  /** The score of table entry `i` against `symptoms`. */
  function Score(table: ConditionsTable, symptoms: set<string>, i: nat): Ratio
    requires i < |table|
  {
    Jaccard(symptoms, table[i].0)
  }

  /** Entry `i` is the one the scorer picks: it scores above zero, strictly above
      every earlier entry, and no later entry scores strictly above it. */
  ghost predicate IsFirstBest(table: ConditionsTable, symptoms: set<string>, i: nat)
  {
    && i < |table|
    && Score(table, symptoms, i).num > 0
    && (forall j :: 0 <= j < i ==> Greater(Score(table, symptoms, i), Score(table, symptoms, j)))
    && (forall j :: i < j < |table| ==> !Greater(Score(table, symptoms, j), Score(table, symptoms, i)))
  }

  /** Some entry shares at least one tag with `symptoms`. */
  ghost predicate SomeOverlap(table: ConditionsTable, symptoms: set<string>)
  {
    exists j :: 0 <= j < |table| && symptoms * table[j].0 != {}
  }

  /** `y <= x` and `z > x` give `z > y`. */
  lemma {:induction false} GreaterAfterNotGreater(x: Ratio, y: Ratio, z: Ratio)
    requires x.den > 0 && y.den > 0 && z.den > 0
    requires !Greater(y, x) && Greater(z, x)
    ensures Greater(z, y)
  {
    // y.num * x.den <= x.num * y.den and x.num * z.den < z.num * x.den
    assert y.num * x.den * z.den <= x.num * y.den * z.den by {
      MulMonotone(y.num * x.den, x.num * y.den, z.den);
    }
    assert x.num * z.den * y.den < z.num * x.den * y.den by {
      MulStrictMonotone(x.num * z.den, z.num * x.den, y.den);
    }
    assert y.num * z.den * x.den < z.num * y.den * x.den;
    if z.num * y.den <= y.num * z.den {
      MulMonotone(z.num * y.den, y.num * z.den, x.den);
      assert false;
    }
  }

  lemma MulMonotone(a: nat, b: nat, c: nat)
    requires a <= b
    ensures a * c <= b * c
  {
  }

  lemma MulStrictMonotone(a: nat, b: nat, c: nat)
    requires a < b && c > 0
    ensures a * c < b * c
  {
  }

  /** `get_differential_diagnosis`: the first entry with the greatest positive
      Jaccard score, or the fallback bundle when every score is zero. */
  method GetDifferentialDiagnosis(table: ConditionsTable, symptoms: set<string>) returns (r: Bundle)
    ensures !SomeOverlap(table, symptoms) ==> r == Fallback()
    ensures SomeOverlap(table, symptoms) ==> exists i: nat :: IsFirstBest(table, symptoms, i) && r == table[i].1
    ensures (forall j :: 0 <= j < |table| ==> WellFormed(table[j].1)) ==> WellFormed(r)
  {
    var bestMatch: Option<Bundle> := None;
    var bestScore := Ratio(0, 1);
    ghost var bestIndex: nat := 0;
    for k := 0 to |table|
      invariant bestScore.den > 0
      invariant forall j :: 0 <= j < k ==> !Greater(Score(table, symptoms, j), bestScore)
      invariant bestMatch.None? ==> bestScore == Ratio(0, 1)
      invariant bestMatch.Some? ==>
        && bestIndex < k
        && bestScore == Score(table, symptoms, bestIndex)
        && bestScore.num > 0
        && bestMatch.value == table[bestIndex].1
        && (forall j :: 0 <= j < bestIndex ==> Greater(bestScore, Score(table, symptoms, j)))
    {
      var (combo, info) := table[k];
      var score := Jaccard(symptoms, combo);
      if Greater(score, bestScore) {
        forall j | 0 <= j < k ensures Greater(score, Score(table, symptoms, j)) {
          GreaterAfterNotGreater(bestScore, Score(table, symptoms, j), score);
        }
        bestScore := score;
        bestMatch := Some(info);
        bestIndex := k;
      }
    }
    if bestMatch.Some? {
      r := bestMatch.value;
      assert IsFirstBest(table, symptoms, bestIndex);
    } else {
      r := Fallback();
      forall j | 0 <= j < |table| ensures symptoms * table[j].0 == {} {
        assert !Greater(Score(table, symptoms, j), Ratio(0, 1));
      }
    }
  }

  /** At most one entry satisfies `IsFirstBest`, so the scorer's choice is determined. */
  lemma FirstBestUnique(table: ConditionsTable, symptoms: set<string>, i: nat, i': nat)
    requires IsFirstBest(table, symptoms, i) && IsFirstBest(table, symptoms, i')
    ensures i == i'
  {
  }

  /** An entry that does not score strictly higher than some earlier entry is never
      chosen; in particular, of two entries with equal scores (as values, so 1/3 and
      2/6 tie) the later one loses. */
  lemma TieGoesToEarlier(table: ConditionsTable, symptoms: set<string>, a: nat, b: nat)
    requires a < b < |table|
    requires !Greater(Score(table, symptoms, b), Score(table, symptoms, a))
    ensures !IsFirstBest(table, symptoms, b)
  {
  }

  /** The first entry whose combination equals the (non-empty) symptom set is chosen. */
  lemma {:induction false} ExactMatchIsFirstBest(table: ConditionsTable, symptoms: set<string>, i: nat)
    requires i < |table| && table[i].0 == symptoms && symptoms != {}
    requires forall j :: 0 <= j < i ==> table[j].0 != symptoms
    ensures IsFirstBest(table, symptoms, i)
  {
    var best := Score(table, symptoms, i);
    assert best.num == best.den;
    forall j | 0 <= j < |table| && j != i && table[j].0 != symptoms
      ensures Greater(best, Score(table, symptoms, j))
    {
      var sj := Score(table, symptoms, j);
      assert sj.num < sj.den;
      MulStrictMonotone(sj.num, sj.den, best.num);
    }
    forall j | i < j < |table| ensures !Greater(Score(table, symptoms, j), best) {
      var sj := Score(table, symptoms, j);
      MulMonotone(sj.num, sj.den, best.num);
    }
  }

  /** Every stored bundle and the fallback pair each condition with one likelihood. */
  lemma ConditionsDbWellFormed()
    ensures forall j :: 0 <= j < |ConditionsDb()| ==> WellFormed(ConditionsDb()[j].1)
    ensures WellFormed(Fallback())
  {
  }

  /** The three-symptom query picks the three-symptom entry (Jaccard 1). */
  lemma InfluenzaEntryChosen()
    ensures IsFirstBest(ConditionsDb(), {"fever", "cough", "fatigue"}, 2)
    ensures ConditionsDb()[2].1 == Bundle(["Influenza", "COVID-19", "Pneumonia", "Bronchitis"],
                                          Moderate, [0.4, 0.3, 0.2, 0.1])
  {
    var t := ConditionsDb();
    var s: set<string> := {"fever", "cough", "fatigue"};
    assert "fatigue" in s && "fatigue" !in t[0].0;
    assert "cough" in s && "cough" !in t[1].0;
    ExactMatchIsFirstBest(t, s, 2);
  }

  /** The four scores of `{"fever"}`: 1/2, 1/2, 1/3 and 0/3. */
  lemma FeverAloneScores()
    ensures Score(ConditionsDb(), {"fever"}, 0) == Ratio(1, 2)
    ensures Score(ConditionsDb(), {"fever"}, 1) == Ratio(1, 2)
    ensures Score(ConditionsDb(), {"fever"}, 2) == Ratio(1, 3)
    ensures Score(ConditionsDb(), {"fever"}, 3) == Ratio(0, 3)
  {
    var t := ConditionsDb();
    var s: set<string> := {"fever"};
    assert s * t[0].0 == {"fever"} && s + t[0].0 == {"fever", "cough"};
    assert s * t[1].0 == {"fever"} && s + t[1].0 == {"fever", "headache"};
    assert s * t[2].0 == {"fever"} && s + t[2].0 == {"fever", "cough", "fatigue"};
    assert s * t[3].0 == {} && s + t[3].0 == {"fever", "cough", "fatigue"};
  }

  /** `{"fever"}` ties at 1/2 between the first two entries; the first one wins. */
  lemma FeverAloneTieBreak()
    ensures IsFirstBest(ConditionsDb(), {"fever"}, 0)
    ensures !IsFirstBest(ConditionsDb(), {"fever"}, 1)
  {
    FeverAloneScores();
    TieGoesToEarlier(ConditionsDb(), {"fever"}, 0, 1);
  }

  // ---------------------------------------------------------------------------
  // Guideline lookup

  /** `get_treatment_guidelines`: the stored record, or the not-found placeholder. */
  function GetTreatmentGuidelines(db: map<string, Guideline>, condition: string): (g: Guideline)
    ensures condition in db ==> g == db[condition]
    ensures condition !in db ==>
      g == NoGuideline("No specific guidelines found for " + condition,
                       "Consult healthcare provider for appropriate treatment")
  {
    if condition in db then db[condition]
    else NoGuideline("No specific guidelines found for " + condition,
                     "Consult healthcare provider for appropriate treatment")
  }

  /** Against the loaded table, a condition gets a stored record exactly when it is
      one of the three documented conditions; the fallback's condition gets none. */
  lemma GuidelinesCoverage(condition: string)
    ensures GetTreatmentGuidelines(GuidelinesDb(), condition).Guideline? <==>
              condition in {"Upper Respiratory Infection", "Influenza", "COVID-19"}
    ensures GetTreatmentGuidelines(GuidelinesDb(), Fallback().conditions[0]).NoGuideline?
  {
  }
}
