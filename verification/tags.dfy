/**
 Rule-based tag suggestion: the text `title + " " + summary + " " + body` is
 lower-cased and each of seven fixed rules contributes its tag when one of its
 keywords occurs in it as a substring. Tags come out in rule order, at most once
 each.
 */
module TagSuggest {
  import opened Text

  /** One detection rule: the tag it suggests and the keywords that trigger it. */
  datatype Rule = Rule(tag: string, keywords: seq<string>)

  /** The rules, in the order they are tried. */
  const Rules: seq<Rule> := [
    Rule("maintenance", ["maintenance", "downtime", "upgrade"]),
    Rule("policy", ["policy", "guideline", "rule"]),
    Rule("meeting", ["meeting", "sync", "discussion"]),
    Rule("deadline", ["deadline", "due", "submit"]),
    Rule("urgent", ["emergency", "urgent", "immediately"]),
    Rule("holiday", ["holiday", "vacation"]),
    Rule("system", ["system", "server", "deploy"])
  ]

  /** The seven tags that can ever be suggested, in rule order. */
  const TagNames: seq<string> := ["maintenance", "policy", "meeting", "deadline", "urgent", "holiday", "system"]

  /** The position of a tag among `TagNames`; `|TagNames|` for any other string. */
  function Rank(t: string): (k: nat)
    ensures k <= |TagNames|
    ensures k < |TagNames| ==> TagNames[k] == t
    ensures t in TagNames ==> k < |TagNames|
  {
    if t == "maintenance" then 0
    else if t == "policy" then 1
    else if t == "meeting" then 2
    else if t == "deadline" then 3
    else if t == "urgent" then 4
    else if t == "holiday" then 5
    else if t == "system" then 6
    else 7
  }

  lemma RulesTagged()
    ensures |Rules| == |TagNames|
    ensures forall k | 0 <= k < |Rules| :: Rules[k].tag == TagNames[k] && Rank(TagNames[k]) == k
  {
  }

  /** `containsAny`: some word of the list occurs in the text; false for an empty list. */
  function ContainsAny(text: string, words: seq<string>): (b: bool)
    ensures b <==> exists k | 0 <= k < |words| :: IsSubstring(words[k], text)
    ensures |words| == 0 ==> !b
  {
    if |words| == 0 then false
    else if Contains(text, words[0]) then true
    else
      var rest := ContainsAny(text, words[1..]);
      assert forall k | 1 <= k < |words| :: words[k] == words[1..][k - 1];
      rest
  }

  /** Rule `k` fires on the (already lower-cased) text. */
  predicate Fires(text: string, k: nat)
    requires k < |Rules|
  {
    ContainsAny(text, Rules[k].keywords)
  }

  /** The tags of rules `k..` that fire, in rule order. */
  function SuggestFrom(text: string, k: nat): (tags: seq<string>)
    requires k <= |Rules|
    ensures forall i | 0 <= i < |tags| :: k <= Rank(tags[i]) < |Rules|
    ensures forall i, j | 0 <= i < j < |tags| :: Rank(tags[i]) < Rank(tags[j])
    ensures forall m | k <= m < |Rules| :: TagNames[m] in tags <==> Fires(text, m)
    decreases |Rules| - k
  {
    if k == |Rules| then []
    else
      var rest := SuggestFrom(text, k + 1);
      var fired := set m | k <= m < |Rules| && Fires(text, m);
      ExtendSuggestion(fired, k, rest);
      if Fires(text, k) then [Rules[k].tag] + rest else rest
  }

  /** One step of `SuggestFrom`: putting rule `k`'s tag in front of tags of
      later rules keeps the ranks in range and increasing. */
  lemma ExtendRanks(k: nat, rest: seq<string>)
    requires k < |Rules|
    requires forall i | 0 <= i < |rest| :: k + 1 <= Rank(rest[i]) < |Rules|
    requires forall i, j | 0 <= i < j < |rest| :: Rank(rest[i]) < Rank(rest[j])
    ensures var tags := [Rules[k].tag] + rest;
            && (forall i | 0 <= i < |tags| :: k <= Rank(tags[i]) < |Rules|)
            && (forall i, j | 0 <= i < j < |tags| :: Rank(tags[i]) < Rank(tags[j]))
    ensures forall i | 0 <= i < |rest| :: rest[i] != Rules[k].tag
  {
    RulesTagged();
  }

  /** One step of `SuggestFrom`: with `fired` the rules that fire, rule `k`'s
      tag (when it fires) in front of the tags of the later rules that fire
      gives the tags of the rules from `k` on that fire. */
  lemma ExtendSuggestion(fired: set<nat>, k: nat, rest: seq<string>)
    requires k < |Rules|
    requires forall i | 0 <= i < |rest| :: k + 1 <= Rank(rest[i]) < |Rules|
    requires forall i, j | 0 <= i < j < |rest| :: Rank(rest[i]) < Rank(rest[j])
    requires forall m | k + 1 <= m < |Rules| :: TagNames[m] in rest <==> m in fired
    ensures var tags := if k in fired then [Rules[k].tag] + rest else rest;
            && (forall i | 0 <= i < |tags| :: k <= Rank(tags[i]) < |Rules|)
            && (forall i, j | 0 <= i < j < |tags| :: Rank(tags[i]) < Rank(tags[j]))
            && (forall m | k <= m < |Rules| :: TagNames[m] in tags <==> m in fired)
  {
    ExtendRanks(k, rest);
    RulesTagged();
    forall m | k < m < |Rules|
      ensures TagNames[m] != Rules[k].tag
    {
      assert Rank(TagNames[m]) != Rank(Rules[k].tag);
    }
  }

  /** The text the rules are matched against. */
  function Haystack(title: string, summary: string, body: string): string {
    ToLower(title + " " + summary + " " + body)
  }

  /** `SuggestTags`: only known tags, each once, in rule order; a tag is
      suggested exactly when one of its keywords occurs in the lower-cased text. */
  function SuggestTags(title: string, summary: string, body: string): (tags: seq<string>)
    ensures forall i | 0 <= i < |tags| :: tags[i] in TagNames
    ensures forall i, j | 0 <= i < j < |tags| :: Rank(tags[i]) < Rank(tags[j])
    ensures forall i, j | 0 <= i < j < |tags| :: tags[i] != tags[j]
    ensures |tags| <= |TagNames|
    ensures forall m | 0 <= m < |Rules| ::
              TagNames[m] in tags <==> ContainsAny(Haystack(title, summary, body), Rules[m].keywords)
  {
    var tags := SuggestFrom(Haystack(title, summary, body), 0);
    RanksBoundLength(tags);
    tags
  }

  /** A sequence with strictly increasing ranks below 7 has at most 7 elements. */
  lemma {:induction false} RanksBoundLength(tags: seq<string>)
    requires forall i | 0 <= i < |tags| :: Rank(tags[i]) < |TagNames|
    requires forall i, j | 0 <= i < j < |tags| :: Rank(tags[i]) < Rank(tags[j])
    ensures |tags| <= |TagNames|
  {
    if |tags| > 0 {
      RanksGrow(tags);
      assert |tags| - 1 <= Rank(tags[|tags| - 1]);
    }
  }

  /** In a strictly rank-increasing sequence the `i`-th element has rank at least `i`. */
  lemma {:induction false} RanksGrow(tags: seq<string>)
    requires forall i, j | 0 <= i < j < |tags| :: Rank(tags[i]) < Rank(tags[j])
    ensures forall i | 0 <= i < |tags| :: i <= Rank(tags[i])
    decreases |tags|
  {
    if |tags| > 1 {
      var front := tags[..|tags| - 1];
      RanksGrow(front);
      assert forall i | 0 <= i < |front| :: front[i] == tags[i];
      assert Rank(tags[|tags| - 2]) < Rank(tags[|tags| - 1]);
    }
  }

  /** Only the lower-cased text is examined: inputs that agree after ASCII
      lower-casing get the same tags. */
  lemma CaseInsensitive(t1: string, s1: string, b1: string, t2: string, s2: string, b2: string)
    requires ToLower(t1) == ToLower(t2) && ToLower(s1) == ToLower(s2) && ToLower(b1) == ToLower(b2)
    ensures SuggestTags(t1, s1, b1) == SuggestTags(t2, s2, b2)
  {
    LowerConcat(t1 + " " + s1 + " ", b1);
    LowerConcat(t1 + " " + s1, " ");
    LowerConcat(t1 + " ", s1);
    LowerConcat(t1, " ");
    LowerConcat(t2 + " " + s2 + " ", b2);
    LowerConcat(t2 + " " + s2, " ");
    LowerConcat(t2 + " ", s2);
    LowerConcat(t2, " ");
  }

  /** A substring of a text made only of spaces is made only of spaces. */
  lemma SubstringOfBlanks(w: string, text: string)
    requires forall i | 0 <= i < |text| :: text[i] == ' '
    requires |w| > 0 && w[0] != ' '
    ensures !IsSubstring(w, text)
  {
    forall i
      ensures !OccursAt(w, text, i)
    {
      if 0 <= i && i + |w| <= |text| {
        assert text[i..i + |w|][0] == ' ';
      }
    }
  }

  /** Empty title, summary and body suggest nothing. */
  lemma EmptyInputNoTags()
    ensures SuggestTags("", "", "") == []
  {
    var text := Haystack("", "", "");
    assert text == "  ";
    forall m, k | 0 <= m < |Rules| && 0 <= k < |Rules[m].keywords|
      ensures !IsSubstring(Rules[m].keywords[k], text)
    {
      SubstringOfBlanks(Rules[m].keywords[k], text);
    }
    NothingFires(text, 0);
  }

  /** When no rule from `k` on fires, no tag is suggested. */
  lemma {:induction false} NothingFires(text: string, k: nat)
    requires k <= |Rules|
    requires forall m | k <= m < |Rules| :: !Fires(text, m)
    ensures SuggestFrom(text, k) == []
    decreases |Rules| - k
  {
    if k < |Rules| {
      NothingFires(text, k + 1);
    }
  }

  /** Matching is by substring, not whole word: "residue" contains "due" and so
      is tagged as a deadline, and "Asynchronous" contains "sync". */
  lemma SubstringNotWord()
    ensures "deadline" in SuggestTags("residue", "", "")
    ensures "meeting" in SuggestTags("Asynchronous", "", "")
  {
    var t1 := Haystack("residue", "", "");
    assert OccursAt("due", t1, 4);
    assert ContainsAny(t1, Rules[3].keywords);
    var t2 := Haystack("Asynchronous", "", "");
    assert t2[1..5] == "sync";
    assert OccursAt("sync", t2, 1);
    assert ContainsAny(t2, Rules[2].keywords);
  }
}
