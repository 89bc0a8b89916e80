/** The local synonym matcher that both `ClinicalDecisionSupport.normalize_symptoms`
    and the local-matching half of `SymptomAnalysisServer.normalize_symptoms` run:
    lower-case the text, walk the tag -> synonyms table in insertion order, and
    append a tag as soon as one of its synonyms is a substring of the text. */
module SymptomMatching {
  import opened Text
  import opened Optional

  /** A symptom table: canonical tag and its synonyms, in the dict's insertion order. */
  type SymptomTable = seq<(string, seq<string>)>

  /** Some synonym in `variations` is a substring of `lowered`. */
  ghost predicate AnyOccurs(variations: seq<string>, lowered: string)
  {
    exists k :: 0 <= k < |variations| && Occurs(lowered, variations[k])
  }

  /** `tag` is the key of some table row one of whose synonyms occurs in `lowered`. */
  ghost predicate TagMatches(table: SymptomTable, lowered: string, tag: string)
  {
    exists i :: 0 <= i < |table| && table[i].0 == tag && AnyOccurs(table[i].1, lowered)
  }

  /** The dict keys are pairwise distinct (a Python dict cannot repeat a key). */
  ghost predicate DistinctKeys(table: SymptomTable)
  {
    forall i, j :: 0 <= i < j < |table| ==> table[i].0 != table[j].0
  }

  /** Every synonym is non-empty (the empty string would occur in every text). */
  ghost predicate NonEmptySynonyms(table: SymptomTable)
  {
    forall i, k :: 0 <= i < |table| && 0 <= k < |table[i].1| ==> table[i].1[k] != ""
  }

  /** `table.get(key)`: the synonyms of the first row whose tag is `key`. */
  function Lookup(table: SymptomTable, key: string): (r: Option<seq<string>>)
    ensures r.None? <==> forall i :: 0 <= i < |table| ==> table[i].0 != key
    ensures r.Some? ==> exists i :: 0 <= i < |table| && table[i] == (key, r.value)
                                   && forall j :: 0 <= j < i ==> table[j].0 != key
  {
    if table == [] then None
    else if table[0].0 == key then
      assert table[0] == (key, table[0].1);
      Some(table[0].1)
    else
      var rest := Lookup(table[1..], key);
      if rest.Some? then
        assert exists i :: 0 <= i < |table| && table[i] == (key, rest.value)
                           && forall j :: 0 <= j < i ==> table[j].0 != key by {
          var i :| 0 <= i < |table[1..]| && table[1..][i] == (key, rest.value)
                   && forall j :: 0 <= j < i ==> table[1..][j].0 != key;
          assert table[i + 1] == (key, rest.value);
          forall j | 0 <= j < i + 1 ensures table[j].0 != key {
            if j > 0 { assert table[j] == table[1..][j - 1]; }
          }
        }
        rest
      else
        assert forall i :: 0 <= i < |table| ==> table[i].0 != key by {
          forall i | 0 <= i < |table| ensures table[i].0 != key {
            if i > 0 { assert table[i] == table[1..][i - 1]; }
          }
        }
        rest
  }

  /** The list `normalized` that the matching loop builds: the keys of the matching
      rows, in table order. */
  ghost function MatchedTags(table: SymptomTable, lowered: string): seq<string>
  {
    if table == [] then []
    else
      var last := table[|table| - 1];
      MatchedTags(table[..|table| - 1], lowered) + (if AnyOccurs(last.1, lowered) then [last.0] else [])
  }

  /** The nested matching loop (inner `break` after the first matching synonym). */
  method MatchTags(table: SymptomTable, text: string) returns (normalized: seq<string>)
    ensures normalized == MatchedTags(table, Lower(text))
  {
    var lowered := Lower(text);
    normalized := [];
    for i := 0 to |table|
      invariant normalized == MatchedTags(table[..i], lowered)
    {
      var (tag, variations) := table[i];
      assert table[..i + 1][..i] == table[..i];
      for k := 0 to |variations|
        invariant normalized == MatchedTags(table[..i], lowered)
        invariant forall m :: 0 <= m < k ==> !Occurs(lowered, variations[m])
      {
        if Contains(lowered, variations[k]) {
          normalized := normalized + [tag];
          break;
        }
      }
    }
    assert table[..|table|] == table;
  }

  /** A tag is in the matcher's output exactly when one of its synonyms occurs in the text. */
  lemma {:induction false} MatchedTagsMembership(table: SymptomTable, lowered: string, tag: string)
    ensures tag in MatchedTags(table, lowered) <==> TagMatches(table, lowered, tag)
  {
    if table != [] {
      var init := table[..|table| - 1];
      var last := table[|table| - 1];
      MatchedTagsMembership(init, lowered, tag);
      if TagMatches(table, lowered, tag) {
        var i :| 0 <= i < |table| && table[i].0 == tag && AnyOccurs(table[i].1, lowered);
        if i < |init| {
          assert init[i] == table[i];
        }
      }
      if TagMatches(init, lowered, tag) {
        var i :| 0 <= i < |init| && init[i].0 == tag && AnyOccurs(init[i].1, lowered);
        assert table[i] == init[i];
      }
    }
  }

  /** The matcher appends each tag at most once when the table keys are distinct,
      so `len(normalized) == len(set(normalized))`. */
  lemma {:induction false} MatchedTagsDistinct(table: SymptomTable, lowered: string)
    requires DistinctKeys(table)
    ensures forall a, b :: 0 <= a < b < |MatchedTags(table, lowered)| ==>
              MatchedTags(table, lowered)[a] != MatchedTags(table, lowered)[b]
  {
    if table != [] {
      var init := table[..|table| - 1];
      var last := table[|table| - 1];
      assert DistinctKeys(init);
      MatchedTagsDistinct(init, lowered);
      if AnyOccurs(last.1, lowered) {
        var prev := MatchedTags(init, lowered);
        forall a | 0 <= a < |prev| ensures prev[a] != last.0 {
          MatchedTagsMembership(init, lowered, prev[a]);
          var i :| 0 <= i < |init| && init[i].0 == prev[a] && AnyOccurs(init[i].1, lowered);
          assert table[i] == init[i];
        }
      }
    }
  }

  /** The matcher never returns more tags than the table has rows. */
  lemma {:induction false} MatchedTagsBound(table: SymptomTable, lowered: string)
    ensures |MatchedTags(table, lowered)| <= |table|
  {
    if table != [] {
      MatchedTagsBound(table[..|table| - 1], lowered);
    }
  }

  /** No synonym of any row occurs in the text: no tag at all. */
  lemma {:induction false} NoSynonymNoTags(table: SymptomTable, lowered: string)
    requires forall i, k :: 0 <= i < |table| && 0 <= k < |table[i].1| ==> !Occurs(lowered, table[i].1[k])
    ensures MatchedTags(table, lowered) == []
  {
    if table != [] {
      var init := table[..|table| - 1];
      forall i, k | 0 <= i < |init| && 0 <= k < |init[i].1| ensures !Occurs(lowered, init[i].1[k]) {
        assert init[i] == table[i];
      }
      NoSynonymNoTags(init, lowered);
    }
  }

  /** Empty input yields no tag when no synonym is the empty string. */
  lemma EmptyTextNoTags(table: SymptomTable)
    requires NonEmptySynonyms(table)
    ensures MatchedTags(table, Lower("")) == []
  {
    forall i, k | 0 <= i < |table| && 0 <= k < |table[i].1| ensures !Occurs(Lower(""), table[i].1[k]) {
      assert |Lower("")| == 0;
    }
    NoSynonymNoTags(table, Lower(""));
  }
}
