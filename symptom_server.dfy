/** `SymptomAnalysisServer`: its symptom table, the local-matching half of
    `normalize_symptoms`, and the `get_symptom_variations` tool. */
module SymptomServer {
  import opened Text
  import opened Optional
  import opened SymptomMatching

  /** The keys of `load_symptoms_database`, in order. */
  function ServerSymptomTags(): seq<string>
  {
    [ "fever", "headache", "cough", "fatigue", "nausea",
      "dizziness", "chest_pain", "shortness_of_breath", "abdominal_pain", "joint_pain",
      "muscle_pain", "back_pain", "throat_pain", "ear_pain", "eye_problems",
      "skin_problems", "sleep_problems", "anxiety", "depression", "cognitive_problems" ]
  }

  /** The synonym lists of `load_symptoms_database`, in the order of the keys. */
  function ServerSynonyms(): (synonyms: seq<seq<string>>)
    ensures |synonyms| == 20
  {
    [ ["fever", "high temperature", "pyrexia", "febrile", "hot", "chills", "running a temperature"],
      ["headache", "head pain", "cephalgia", "migraine", "head ache", "throbbing head", "pressure in head"],
      ["cough", "coughing", "persistent cough", "dry cough", "wet cough", "hacking cough", "productive cough"],
      ["tired", "fatigue", "exhaustion", "weakness", "lethargy", "low energy", "feeling drained"],
      ["nausea", "queasy", "sick to stomach", "vomiting", "throwing up", "upset stomach", "feeling sick"],
      ["dizzy", "lightheaded", "vertigo", "unsteady", "woozy", "spinning sensation", "balance problems"],
      ["chest pain", "chest discomfort", "chest tightness", "heart pain", "pressure in chest", "chest ache"],
      ["shortness of breath", "difficulty breathing", "breathlessness", "dyspnea", "can't catch breath", "breathing problems"],
      ["stomach pain", "abdominal pain", "belly ache", "cramps", "stomach cramps", "tummy ache", "gut pain"],
      ["joint pain", "arthritis", "joint stiffness", "joint swelling", "achy joints", "joint discomfort", "joint inflammation"],
      ["muscle pain", "muscle ache", "muscle soreness", "muscle cramps", "muscle stiffness", "muscle tenderness"],
      ["back pain", "backache", "lower back pain", "upper back pain", "spinal pain", "back stiffness"],
      ["sore throat", "throat pain", "throat irritation", "scratchy throat", "throat discomfort", "difficulty swallowing"],
      ["ear pain", "earache", "ear discomfort", "ear pressure", "ear fullness", "ear infection"],
      ["eye pain", "eye irritation", "red eyes", "watery eyes", "blurred vision", "eye strain"],
      ["rash", "skin rash", "hives", "itching", "skin irritation", "skin redness", "skin lesions"],
      ["insomnia", "difficulty sleeping", "trouble falling asleep", "waking up frequently", "poor sleep quality"],
      ["anxiety", "nervousness", "worry", "panic", "stress", "feeling anxious", "restlessness"],
      ["depression", "sadness", "low mood", "hopelessness", "lack of interest", "emotional numbness"],
      ["memory problems", "difficulty concentrating", "brain fog", "confusion", "forgetfulness", "mental fatigue"] ]
  }

  /** Tags paired with their synonym lists, row by row. */
  function Zip(tags: seq<string>, synonyms: seq<seq<string>>): (table: SymptomTable)
    requires |tags| == |synonyms|
    ensures |table| == |tags|
    ensures forall i :: 0 <= i < |table| ==> table[i].0 == tags[i] && table[i].1 == synonyms[i]
  {
    seq(|tags|, i requires 0 <= i < |tags| => (tags[i], synonyms[i]))
  }

  /** `load_symptoms_database`. */
  function ServerSymptomsDb(): SymptomTable
  {
    assert |ServerSymptomTags()| == 20;
    Zip(ServerSymptomTags(), ServerSynonyms())
  }

  /** No tag appears twice in the key list. */
  lemma ServerSymptomTagsDistinct()
    ensures |ServerSymptomTags()| == 20
    ensures forall i, j :: 0 <= i < j < |ServerSymptomTags()| ==> ServerSymptomTags()[i] != ServerSymptomTags()[j]
  {
    var tags := ServerSymptomTags();
    assert forall i, j :: 0 <= i < j < |tags| ==> tags[i] != tags[j];
  }

  /** The server's table has twenty distinct keys. */
  lemma ServerSymptomsDbKeys()
    ensures |ServerSymptomsDb()| == 20
    ensures DistinctKeys(ServerSymptomsDb())
  {
    ServerSymptomTagsDistinct();
  }

  /** The local-matching loop of `normalize_symptoms`: the matched tags and the length
      of the `normalized` list, which is the numerator of the `local_matching`
      confidence `len(normalized) / len(symptoms_db)`. */
  method LocalMatching(text: string) returns (normalizedSymptoms: set<string>, localMatches: nat)
    ensures forall tag :: tag in normalizedSymptoms <==> TagMatches(ServerSymptomsDb(), Lower(text), tag)
    ensures localMatches == |normalizedSymptoms|
    ensures localMatches <= |ServerSymptomsDb()|
  {
    var normalized := MatchTags(ServerSymptomsDb(), text);
    normalizedSymptoms := set t | t in normalized;
    forall tag ensures tag in normalizedSymptoms <==> TagMatches(ServerSymptomsDb(), Lower(text), tag) {
      MatchedTagsMembership(ServerSymptomsDb(), Lower(text), tag);
    }
    ServerSymptomsDbKeys();
    MatchedTagsDistinct(ServerSymptomsDb(), Lower(text));
    MatchedTagsBound(ServerSymptomsDb(), Lower(text));
    DistinctCard(normalized);
    localMatches := |normalized|;
  }

  /** A list without repeated elements has as many elements as its set. */
  lemma {:induction false} DistinctCard(xs: seq<string>)
    requires forall a, b :: 0 <= a < b < |xs| ==> xs[a] != xs[b]
    ensures |set x | x in xs| == |xs|
  {
    if xs != [] {
      var init := xs[..|xs| - 1];
      DistinctCard(init);
      assert (set x | x in xs) == (set x | x in init) + {xs[|xs| - 1]};
      assert xs[|xs| - 1] !in (set x | x in init);
    }
  }

  /** What the `get_symptom_variations` tool returns (before JSON encoding). */
  datatype VariationsResult = VariationsResult(symptom: string, variations: seq<string>, count: nat)

  /** The `get_symptom_variations` branch of `call_tool`: the lower-cased `symptom`
      argument (empty when absent), its stored synonyms or `[]`, and their count. */
  function GetSymptomVariations(table: SymptomTable, arguments: map<string, string>): (r: VariationsResult)
    ensures r.symptom == Lower(if "symptom" in arguments then arguments["symptom"] else "")
    ensures r.count == |r.variations|
    ensures (forall i :: 0 <= i < |table| ==> table[i].0 != r.symptom) ==> r.variations == []
    ensures forall i :: 0 <= i < |table| && table[i].0 == r.symptom && DistinctKeys(table) ==>
              r.variations == table[i].1
  {
    var symptom := Lower(if "symptom" in arguments then arguments["symptom"] else "");
    var variations := match Lookup(table, symptom) case Some(vs) => vs case None => [];
    VariationsResult(symptom, variations, |variations|)
  }

  /** Any synonym the tool reports for a tag, found in a text, makes the local
      matcher report that tag for the text. */
  lemma VariationsDriveMatching(table: SymptomTable, arguments: map<string, string>, text: string, v: string)
    requires v in GetSymptomVariations(table, arguments).variations
    requires Occurs(Lower(text), v)
    ensures TagMatches(table, Lower(text), GetSymptomVariations(table, arguments).symptom)
  {
    var r := GetSymptomVariations(table, arguments);
    var found := Lookup(table, r.symptom);
    assert found.Some?;
    var i :| 0 <= i < |table| && table[i] == (r.symptom, found.value)
             && forall j :: 0 <= j < i ==> table[j].0 != r.symptom;
    var k :| 0 <= k < |table[i].1| && table[i].1[k] == v;
    assert AnyOccurs(table[i].1, Lower(text));
  }

  /** The lookup is case-insensitive in its argument: "Fever" gives fever's synonyms. */
  lemma VariationsOfCapitalisedFever()
    ensures GetSymptomVariations(ServerSymptomsDb(), map["symptom" := "Fever"]).variations
            == ServerSymptomsDb()[0].1
    ensures GetSymptomVariations(ServerSymptomsDb(), map["symptom" := "Fever"]).count == 7
  {
    var table := ServerSymptomsDb();
    assert Lower("Fever") == "fever";
    ServerSymptomsDbKeys();
    assert table[0].0 == "fever" && table[0].1 == ServerSynonyms()[0];
    assert |ServerSynonyms()[0]| == 7;
  }
}
