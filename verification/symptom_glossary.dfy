/** The tier-1 symptom glossary builder: alias generation for each of the
    four languages, one glossary entry per symptom, and the capped walk over
    the scenario pools that numbers the entries. */
module SymptomGlossary {
  import opened Text
  import opened Dedup
  import opened SymptomData
  import opened Wrappers

  // ---------------------------------------------------------------
  // Korean aliases
  // ---------------------------------------------------------------

  /** For one Korean rule whose pattern occurs: each substitution, each
      followed by its " 있어요" form. */
  function KoRuleVariants(ko: string, pat: string, reps: seq<string>): (r: seq<string>)
    ensures |r| == 2 * |reps|
    ensures forall j :: 0 <= j < |reps| ==>
              r[2 * j] == ReplaceAll(ko, pat, reps[j]) &&
              r[2 * j + 1] == ReplaceAll(ko, pat, reps[j]) + " 있어요"
  {
    if reps == [] then []
    else
      var v := ReplaceAll(ko, pat, reps[0]);
      [v, v + " 있어요"] + KoRuleVariants(ko, pat, reps[1..])
  }

  /** The rule loop of `auto_aliases_ko`, over the rules in order. */
  function KoRuleCandidates(ko: string, rules: seq<Rule>): seq<string> {
    if rules == [] then []
    else
      (if Contains(ko, rules[0].pattern)
       then KoRuleVariants(ko, rules[0].pattern, rules[0].replacements)
       else [])
      + KoRuleCandidates(ko, rules[1..])
  }

  /** The stem left when "통증" is removed and the brackets and spaces
      around it are stripped. */
  function PainBase(ko: string): string {
    StripChars(ReplaceAll(ko, "통증", ""), Chars({'(', ')', ' '}))
  }

  /** The "X통증" to "X가 아파요" paraphrases. */
  function PainParaphrases(ko: string): seq<string> {
    if EndsWith(ko, "통증") && PainBase(ko) != [] then
      var base := PainBase(ko);
      [base + "이 아파요", base + "가 아파요", base + "이/가 아파요"]
    else []
  }

  /** The polite endings of a term of at most six characters. */
  function KoPoliteForms(ko: string): seq<string> {
    if |ko| <= 6 then [ko + " 있어요", ko + "입니다"] else []
  }

  /** The "가 있어요" forms, unless the term ends in "음" or "함". */
  function KoParticleForms(ko: string): seq<string> {
    if !EndsWith(ko, "음") && !EndsWith(ko, "함") then [ko + "가 있어요", ko + "가 있어요."] else []
  }

  /** The "이" forms of a term ending in "통" or "통증". */
  function KoPainTermForms(ko: string): seq<string> {
    if EndsWith(ko, "통") || EndsWith(ko, "통증") then [ko + "이 있어요", ko + "이 심해요"] else []
  }

  /** The "해요"/"합니다" rewrites of a term ending in "함". */
  function KoHaeyoForms(ko: string): seq<string> {
    if EndsWith(ko, "함") then [ReplaceAll(ko, "함", "해요"), ReplaceAll(ko, "함", "합니다")] else []
  }

  /** Every candidate `auto_aliases_ko` collects before `uniq`, in order. */
  function KoCandidates(ko: string, rules: seq<Rule>): seq<string> {
    KoPoliteForms(ko) + KoParticleForms(ko) + KoPainTermForms(ko)
    + PainParaphrases(ko) + KoRuleCandidates(ko, rules) + KoHaeyoForms(ko)
  }

  /** Each group of candidates is part of the whole list. */
  lemma KoCandidatesCover(ko: string, rules: seq<Rule>, c: string)
    ensures c in KoPoliteForms(ko) ==> c in KoCandidates(ko, rules)
    ensures c in KoParticleForms(ko) ==> c in KoCandidates(ko, rules)
    ensures c in KoPainTermForms(ko) ==> c in KoCandidates(ko, rules)
    ensures c in PainParaphrases(ko) ==> c in KoCandidates(ko, rules)
    ensures c in KoRuleCandidates(ko, rules) ==> c in KoCandidates(ko, rules)
    ensures c in KoHaeyoForms(ko) ==> c in KoCandidates(ko, rules)
  {
  }

  /** `auto_aliases_ko(ko)`: conversational Korean variants of a term. */
  function AutoAliasesKo(ko: string, rules: seq<Rule>): (r: seq<string>)
    ensures NoDups(r) && AllClean(r)
  {
    Uniq(KoCandidates(ko, rules))
  }

  /** A Korean candidate that ends in a non-whitespace character is an
      alias in stripped form. */
  lemma KoKeeps(ko: string, rules: seq<Rule>, c: string)
    requires c in KoCandidates(ko, rules)
    requires c != [] && !IsSpace(Last(c))
    ensures Strip(c) in AutoAliasesKo(ko, rules)
  {
    NotBlank(c);
    UniqKeeps(KoCandidates(ko, rules), c);
  }

  /** A term of at most six characters gets the two polite endings; a
      clean term gets them verbatim. */
  lemma KoWrapperAliases(ko: string, rules: seq<Rule>)
    requires |ko| <= 6
    ensures Strip(ko + " 있어요") in AutoAliasesKo(ko, rules) && Strip(ko + "입니다") in AutoAliasesKo(ko, rules)
    ensures IsClean(ko) ==> ko + " 있어요" in AutoAliasesKo(ko, rules) && ko + "입니다" in AutoAliasesKo(ko, rules)
  {
    var c1, c2 := ko + " 있어요", ko + "입니다";
    assert KoPoliteForms(ko) == [c1, c2];
    KoCandidatesCover(ko, rules, c1);
    KoCandidatesCover(ko, rules, c2);
    KoKeeps(ko, rules, c1);
    KoKeeps(ko, rules, c2);
    if IsClean(ko) {
      StripJoin(ko, " 있어요");
      StripJoin(ko, "입니다");
    }
  }

  /** A term that does not end in "음" or "함" gets the "가 있어요" forms. */
  lemma KoParticleAliases(ko: string, rules: seq<Rule>)
    requires !EndsWith(ko, "음") && !EndsWith(ko, "함")
    ensures Strip(ko + "가 있어요") in AutoAliasesKo(ko, rules) && Strip(ko + "가 있어요.") in AutoAliasesKo(ko, rules)
  {
    var c1, c2 := ko + "가 있어요", ko + "가 있어요.";
    assert KoParticleForms(ko) == [c1, c2];
    KoCandidatesCover(ko, rules, c1);
    KoCandidatesCover(ko, rules, c2);
    KoKeeps(ko, rules, c1);
    KoKeeps(ko, rules, c2);
  }

  /** A term ending in "통" or "통증" gets the "이 있어요" and "이 심해요" forms. */
  lemma KoPainTermAliases(ko: string, rules: seq<Rule>)
    requires EndsWith(ko, "통") || EndsWith(ko, "통증")
    ensures Strip(ko + "이 있어요") in AutoAliasesKo(ko, rules) && Strip(ko + "이 심해요") in AutoAliasesKo(ko, rules)
  {
    var c1, c2 := ko + "이 있어요", ko + "이 심해요";
    assert KoPainTermForms(ko) == [c1, c2];
    KoCandidatesCover(ko, rules, c1);
    KoCandidatesCover(ko, rules, c2);
    KoKeeps(ko, rules, c1);
    KoKeeps(ko, rules, c2);
  }

  /** A term ending in "통증" with a stem left over gets the three
      "아파요" paraphrases of the stem. */
  lemma KoPainParaphraseAliases(ko: string, rules: seq<Rule>)
    requires EndsWith(ko, "통증") && PainBase(ko) != []
    ensures Strip(PainBase(ko) + "이 아파요") in AutoAliasesKo(ko, rules)
    ensures Strip(PainBase(ko) + "가 아파요") in AutoAliasesKo(ko, rules)
    ensures Strip(PainBase(ko) + "이/가 아파요") in AutoAliasesKo(ko, rules)
  {
    var base := PainBase(ko);
    var ps := PainParaphrases(ko);
    assert ps[0] == base + "이 아파요" && ps[1] == base + "가 아파요" && ps[2] == base + "이/가 아파요";
    KoCandidatesCover(ko, rules, base + "이 아파요");
    KoCandidatesCover(ko, rules, base + "가 아파요");
    KoCandidatesCover(ko, rules, base + "이/가 아파요");
    KoKeeps(ko, rules, base + "이 아파요");
    KoKeeps(ko, rules, base + "가 아파요");
    KoKeeps(ko, rules, base + "이/가 아파요");
  }

  /** A term ending in "함" gets the "해요" and "합니다" rewrites. */
  lemma KoHaeyoAliases(ko: string, rules: seq<Rule>)
    requires EndsWith(ko, "함")
    ensures Strip(ReplaceAll(ko, "함", "해요")) in AutoAliasesKo(ko, rules)
    ensures Strip(ReplaceAll(ko, "함", "합니다")) in AutoAliasesKo(ko, rules)
  {
    var h1 := ReplaceAll(ko, "함", "해요");
    var h2 := ReplaceAll(ko, "함", "합니다");
    assert KoHaeyoForms(ko)[0] == h1 && KoHaeyoForms(ko)[1] == h2;
    assert Last(ko) == '함' by { assert ko[|ko| - 1..][0] == '함'; }
    ReplaceAllLastNotSpace(ko, "함", "해요");
    ReplaceAllLastNotSpace(ko, "함", "합니다");
    KoCandidatesCover(ko, rules, h1);
    KoCandidatesCover(ko, rules, h2);
    KoKeeps(ko, rules, h1);
    KoKeeps(ko, rules, h2);
  }

  /** Nothing but the stripped candidates comes out of the Korean generator. */
  lemma AutoAliasesKoSound(ko: string, rules: seq<Rule>)
    ensures forall a :: a in AutoAliasesKo(ko, rules) ==> exists c :: c in KoCandidates(ko, rules) && Strip(c) == a
  {
    UniqSpec(KoCandidates(ko, rules));
  }

  /** The candidates of every rule whose pattern occurs are among the rule loop's output. */
  lemma {:induction false} KoRuleCandidatesHave(ko: string, rules: seq<Rule>, i: nat, j: nat)
    requires i < |rules| && j < |rules[i].replacements|
    requires Contains(ko, rules[i].pattern)
    ensures ReplaceAll(ko, rules[i].pattern, rules[i].replacements[j]) in KoRuleCandidates(ko, rules)
    ensures ReplaceAll(ko, rules[i].pattern, rules[i].replacements[j]) + " 있어요" in KoRuleCandidates(ko, rules)
  {
    var vs := KoRuleVariants(ko, rules[0].pattern, rules[0].replacements);
    if i == 0 {
      assert vs[2 * j] in vs && vs[2 * j + 1] in vs;
    } else {
      KoRuleCandidatesHave(ko, rules[1..], i - 1, j);
    }
  }

  /** Every pattern of a rule table is non-empty and every replacement clean. */
  predicate RulesClean(rules: seq<Rule>) {
    forall i :: 0 <= i < |rules| ==> rules[i].pattern != [] && AllClean(rules[i].replacements)
  }

  /** Dropping the first rule keeps a table clean. */
  lemma RulesCleanTail(rules: seq<Rule>)
    requires rules != [] && RulesClean(rules)
    ensures RulesClean(rules[1..])
  {
    forall i | 0 <= i < |rules[1..]|
      ensures rules[1..][i].pattern != [] && AllClean(rules[1..][i].replacements)
    {
      assert rules[1..][i] == rules[i + 1];
    }
  }

  /** The shipped Korean rules are clean. */
  lemma KoRulesClean()
    ensures RulesClean(KoRules)
  {
    forall i | 0 <= i < |KoRules|
      ensures KoRules[i].pattern != [] && AllClean(KoRules[i].replacements)
    {
      var r := KoRules[i];
      forall j | 0 <= j < |r.replacements| ensures IsClean(r.replacements[j]) {
        var c := r.replacements[j];
        assert c != [] && !IsSpace(c[0]) && !IsSpace(c[|c| - 1]);
      }
    }
  }

  /** When a Korean rule's pattern occurs in the term, both the substituted
      term and its " 있어요" form are aliases; for a clean term, verbatim. */
  lemma AutoAliasesKoRules(ko: string, rules: seq<Rule>, i: nat, j: nat)
    requires RulesClean(rules)
    requires i < |rules| && j < |rules[i].replacements|
    requires Contains(ko, rules[i].pattern)
    ensures Strip(ReplaceAll(ko, rules[i].pattern, rules[i].replacements[j])) in AutoAliasesKo(ko, rules)
    ensures Strip(ReplaceAll(ko, rules[i].pattern, rules[i].replacements[j]) + " 있어요") in AutoAliasesKo(ko, rules)
    ensures IsClean(ko) ==>
              ReplaceAll(ko, rules[i].pattern, rules[i].replacements[j]) in AutoAliasesKo(ko, rules) &&
              ReplaceAll(ko, rules[i].pattern, rules[i].replacements[j]) + " 있어요" in AutoAliasesKo(ko, rules)
  {
    var pat, r := rules[i].pattern, rules[i].replacements[j];
    KoRuleCandidatesHave(ko, rules, i, j);
    KoRuleKept(ko, rules, pat, r);
    ReplaceAllHasRep(ko, pat, r);
    HasNonSpace(ReplaceAll(ko, pat, r), r[0]);
    KoCandidatesCover(ko, rules, ReplaceAll(ko, pat, r));
    UniqKeeps(KoCandidates(ko, rules), ReplaceAll(ko, pat, r));
  }

  /** A substitution the rule loop produced survives `uniq`. */
  lemma KoRuleKept(ko: string, rules: seq<Rule>, pat: string, rep: string)
    requires pat != [] && IsClean(rep)
    requires ReplaceAll(ko, pat, rep) in KoRuleCandidates(ko, rules)
    requires ReplaceAll(ko, pat, rep) + " 있어요" in KoRuleCandidates(ko, rules)
    ensures Strip(ReplaceAll(ko, pat, rep) + " 있어요") in AutoAliasesKo(ko, rules)
    ensures IsClean(ko) ==>
              ReplaceAll(ko, pat, rep) in AutoAliasesKo(ko, rules) &&
              ReplaceAll(ko, pat, rep) + " 있어요" in AutoAliasesKo(ko, rules)
  {
    var v := ReplaceAll(ko, pat, rep);
    KoCandidatesCover(ko, rules, v);
    KoCandidatesCover(ko, rules, v + " 있어요");
    KoKeeps(ko, rules, v + " 있어요");
    if IsClean(ko) {
      ReplaceAllEnds(ko, pat, rep);
      assert IsStripped(v);
      StripSpec(v);
      StripJoin(v, " 있어요");
      KoKeeps(ko, rules, v);
    }
  }

  // ---------------------------------------------------------------
  // English aliases
  // ---------------------------------------------------------------

  /** The conversational phrases `auto_aliases_en` adds for each keyword. */
  const PainPhrases: seq<string> := ["it hurts", "I'm in pain", "painful", "I have pain"]
  const BreathPhrases: seq<string> := ["I can't breathe well", "hard to breathe", "trouble breathing"]
  const NauseaPhrases: seq<string> := ["feel nauseous", "feel sick", "queasy"]
  const VomitingPhrases: seq<string> := ["throwing up", "threw up"]
  const DiarrheaPhrases: seq<string> := ["loose stools", "runny stool"]

  /** The phrases for the keywords found in the term, in the source's order. */
  function EnPhrases(en: string): seq<string> {
    (if Contains(en, "pain") then PainPhrases else [])
    + (if Contains(en, "shortness of breath") || Contains(en, "breath") then BreathPhrases else [])
    + (if Contains(en, "nausea") then NauseaPhrases else [])
    + (if Contains(en, "vomiting") then VomitingPhrases else [])
    + (if Contains(en, "diarrhea") then DiarrheaPhrases else [])
  }

  /** For one English rule whose key occurs: each substitution, in order. */
  function EnRuleVariants(en: string, key: string, reps: seq<string>): (r: seq<string>)
    ensures |r| == |reps|
    ensures forall j :: 0 <= j < |reps| ==> r[j] == ReplaceAll(en, key, reps[j])
  {
    seq(|reps|, j requires 0 <= j < |reps| => ReplaceAll(en, key, reps[j]))
  }

  /** The rule loop of `auto_aliases_en`, over the rules in order. */
  function EnRuleCandidates(en: string, rules: seq<Rule>): seq<string> {
    if rules == [] then []
    else
      (if Contains(en, rules[0].pattern)
       then EnRuleVariants(en, rules[0].pattern, rules[0].replacements)
       else [])
      + EnRuleCandidates(en, rules[1..])
  }

  /** Every candidate `auto_aliases_en` collects, the term itself first. */
  function EnCandidates(en: string, rules: seq<Rule>): seq<string> {
    [en] + EnPhrases(en) + EnRuleCandidates(en, rules)
  }

  /** `auto_aliases_en(en)`: the candidates other than the term itself, through `uniq`. */
  function AutoAliasesEn(en: string, rules: seq<Rule>): (r: seq<string>)
    ensures NoDups(r) && AllClean(r)
  {
    Uniq(Without(EnCandidates(en, rules), en))
  }

  /** The English generator keeps the stripped form of every candidate other
      than the term, keeps nothing else, and, when the rule substitutions are
      clean, never offers the term as its own alias. */
  lemma AutoAliasesEnSpec(en: string, rules: seq<Rule>)
    ensures forall c :: c in EnCandidates(en, rules) && c != en && Strip(c) != [] ==> Strip(c) in AutoAliasesEn(en, rules)
    ensures forall a :: a in AutoAliasesEn(en, rules) ==>
              exists c :: c in EnCandidates(en, rules) && c != en && Strip(c) == a
    ensures RulesClean(rules) ==> en !in AutoAliasesEn(en, rules)
  {
    var w := Without(EnCandidates(en, rules), en);
    UniqSpec(w);
    forall c | c in EnCandidates(en, rules) && c != en && Strip(c) != [] ensures Strip(c) in AutoAliasesEn(en, rules) {
      UniqKeeps(w, c);
    }
    if !IsStripped(en) {
      assert forall k :: 0 <= k < |AutoAliasesEn(en, rules)| ==> IsStripped(AutoAliasesEn(en, rules)[k]);
    } else if RulesClean(rules) {
      EnCandidatesStripped(en, rules);
      forall k | 0 <= k < |w| ensures Strip(w[k]) != en {
        StripSpec(w[k]);
      }
    }
  }

  /** The English rule candidates are stripped when the term is: each starts
      and ends either as the term does or as a clean replacement does. */
  lemma {:induction false} EnRuleCandidatesStripped(en: string, rules: seq<Rule>)
    requires IsStripped(en) && RulesClean(rules)
    ensures forall c :: c in EnRuleCandidates(en, rules) ==> IsStripped(c)
  {
    if rules != [] {
      RulesCleanTail(rules);
      EnRuleCandidatesStripped(en, rules[1..]);
      if Contains(en, rules[0].pattern) {
        var reps := rules[0].replacements;
        var vs := EnRuleVariants(en, rules[0].pattern, reps);
        forall j | 0 <= j < |reps| ensures IsStripped(vs[j]) {
          ReplaceAllEnds(en, rules[0].pattern, reps[j]);
        }
      }
    }
  }

  /** Every English candidate is stripped when the term is. */
  lemma EnCandidatesStripped(en: string, rules: seq<Rule>)
    requires IsStripped(en) && RulesClean(rules)
    ensures forall c :: c in EnCandidates(en, rules) ==> IsStripped(c)
  {
    EnPhrasesClean(en);
    EnRuleCandidatesStripped(en, rules);
  }

  /** The conversational phrases are clean. */
  lemma EnPhrasesClean(en: string)
    ensures forall c :: c in EnPhrases(en) ==> IsClean(c)
  {
    PainPhrasesClean();
    BreathPhrasesClean();
    OtherPhrasesClean();
  }

  lemma PainPhrasesClean() ensures AllClean(PainPhrases) { }
  lemma BreathPhrasesClean() ensures AllClean(BreathPhrases) { }
  lemma OtherPhrasesClean()
    ensures AllClean(NauseaPhrases) && AllClean(VomitingPhrases) && AllClean(DiarrheaPhrases)
  {
  }

  /** The shipped English rules are clean. */
  lemma EnRulesClean()
    ensures RulesClean(EnRules)
  {
  }

  // ---------------------------------------------------------------
  // Chinese and Japanese aliases
  // ---------------------------------------------------------------

  /** An alias table whose every list is already clean and duplicate-free. */
  predicate CleanTable(table: Table<seq<string>>) {
    forall i :: 0 <= i < |table| ==> NoDups(table[i].1) && AllClean(table[i].1)
  }

  /** `default_aliases_zh` and `default_aliases_ja`: `uniq` of the table's
      list for the term, or of the empty list when the term is not listed. */
  function DefaultAliases(table: Table<seq<string>>, term: string): (r: seq<string>)
    ensures NoDups(r) && AllClean(r)
    ensures Find(table, term).None? ==> r == []
  {
    Uniq(Find(table, term).GetOr([]))
  }

  /** Over a clean table the lookup returns the listed aliases unchanged. */
  lemma DefaultAliasesOfClean(table: Table<seq<string>>, term: string)
    requires CleanTable(table)
    ensures Find(table, term).Some? ==> DefaultAliases(table, term) == Find(table, term).value
  {
    var found := Find(table, term);
    if found.Some? {
      var i :| 0 <= i < |table| && table[i] == (term, found.value);
      UniqOfClean(found.value);
    }
  }

  /** The shipped Chinese table is clean. */
  lemma ZhTableClean()
    ensures CleanTable(ZhAliasTable)
  {
    forall i | 0 <= i < |ZhAliasTable| ensures NoDups(ZhAliasTable[i].1) && AllClean(ZhAliasTable[i].1) {
      if i < 5 { ZhTableHeadClean(i); } else { ZhTableTailClean(i); }
    }
  }

  lemma ZhTableHeadClean(i: nat)
    requires i < 5 <= |ZhAliasTable|
    ensures NoDups(ZhAliasTable[i].1) && AllClean(ZhAliasTable[i].1)
  {
  }

  lemma ZhTableTailClean(i: nat)
    requires 5 <= i < |ZhAliasTable|
    ensures NoDups(ZhAliasTable[i].1) && AllClean(ZhAliasTable[i].1)
  {
  }

  /** The shipped Japanese table is clean. */
  lemma JaTableClean()
    ensures CleanTable(JaAliasTable)
  {
    forall i | 0 <= i < |JaAliasTable| ensures NoDups(JaAliasTable[i].1) && AllClean(JaAliasTable[i].1) {
      if i < 5 { JaTableHeadClean(i); } else { JaTableTailClean(i); }
    }
  }

  lemma JaTableHeadClean(i: nat)
    requires i < 5 <= |JaAliasTable|
    ensures NoDups(JaAliasTable[i].1) && AllClean(JaAliasTable[i].1)
  {
  }

  lemma JaTableTailClean(i: nat)
    requires 5 <= i < |JaAliasTable|
    ensures NoDups(JaAliasTable[i].1) && AllClean(JaAliasTable[i].1)
  {
  }

  /** `default_aliases_zh(zh)` with the shipped table: the listed aliases
      of a known term, nothing for any other term. */
  lemma DefaultAliasesZh(zh: string)
    ensures Find(ZhAliasTable, zh).Some? ==> DefaultAliases(ZhAliasTable, zh) == Find(ZhAliasTable, zh).value
    ensures Find(ZhAliasTable, zh).None? ==> DefaultAliases(ZhAliasTable, zh) == []
  {
    ZhTableClean();
    DefaultAliasesOfClean(ZhAliasTable, zh);
  }

  /** `default_aliases_ja(ja)` with the shipped table: the listed aliases
      of a known term, nothing for any other term. */
  lemma DefaultAliasesJa(ja: string)
    ensures Find(JaAliasTable, ja).Some? ==> DefaultAliases(JaAliasTable, ja) == Find(JaAliasTable, ja).value
    ensures Find(JaAliasTable, ja).None? ==> DefaultAliases(JaAliasTable, ja) == []
  {
    JaTableClean();
    DefaultAliasesOfClean(JaAliasTable, ja);
  }

  // ---------------------------------------------------------------
  // Glossary entries
  // ---------------------------------------------------------------

  /** The data the builder reads: curated aliases, the Korean and English
      rewrite rules, and the Chinese and Japanese alias tables. */
  datatype Tables = Tables(
    curated: Table<Curated>, koRules: seq<Rule>, enRules: seq<Rule>,
    zhAliases: Table<seq<string>>, jaAliases: Table<seq<string>>)

  /** The tables as shipped. */
  const Shipped := Tables(CuratedAliases, KoRules, EnRules, ZhAliasTable, JaAliasTable)

  /** The alias lists of one entry, per language. */
  datatype AliasLists = AliasLists(ko: seq<string>, en: seq<string>, zh: seq<string>, ja: seq<string>)

  /** One glossary record; `kind` is the record's "type" field. */
  datatype Entry = Entry(
    termId: string, kind: string, priority: string, scenario: string,
    ko: string, en: string, zh: string, ja: string,
    aliases: AliasLists)

  /** `f"S_{counter:04d}"`. */
  function TermId(counter: int): (id: string)
    ensures |id| >= 6 && id[..2] == "S_"
    ensures 0 <= counter < 10000 ==> |id| == 6
    ensures 0 <= counter ==> AllDigits(id[2..]) && DecimalValue(id[2..]) == counter
    ensures 0 <= counter ==> |id| == 2 + if |NatToDecimal(counter)| < 4 then 4 else |NatToDecimal(counter)|
    ensures counter < 0 ==> id[2] == '-' && AllDigits(id[3..]) && DecimalValue(id[3..]) == -counter
    ensures counter < 0 ==> |id| == 3 + if |NatToDecimal(-counter)| < 3 then 3 else |NatToDecimal(-counter)|
  {
    var d := FormatWidth4(counter);
    assert ("S_" + d)[2..] == d;
    assert counter < 0 ==> ("S_" + d)[3..] == d[1..];
    "S_" + d
  }

  /** Two counters give the same term id exactly when they are equal. */
  lemma TermIdInjective(a: int, b: int)
    ensures TermId(a) == TermId(b) <==> a == b
  {
    assert TermId(a)[2..] == FormatWidth4(a) && TermId(b)[2..] == FormatWidth4(b);
    if TermId(a) == TermId(b) {
      FormatWidth4Injective(a, b);
    }
  }

  /** The curated lists for a Korean term in a curated table (the shipped
      one is `CuratedAliases`), empty lists when there are none. */
  function CurationOf(curated: Table<Curated>, ko: string): Curated {
    Find(curated, ko).GetOr(Curated([], [], [], []))
  }

  /** What one language's alias list in an entry satisfies: clean, without
      duplicates, without the canonical term; every non-blank curated or
      generated alias other than the canonical term is present in stripped
      form, and nothing else is. */
  predicate MergedFrom(r: seq<string>, curated: seq<string>, generated: seq<string>, canonical: string) {
    && NoDups(r) && AllClean(r) && canonical !in r
    && (forall x :: x in curated + generated && Strip(x) != [] && Strip(x) != canonical ==> Strip(x) in r)
    && (forall a :: a in r ==> exists x :: x in curated + generated && Strip(x) == a)
    && (forall k, l :: 0 <= k < l < |r| ==>
          FirstIndex(StripAll(curated + generated), r[k]) < FirstIndex(StripAll(curated + generated), r[l]))
  }

  /** Steps 2 and 3 of `build_entry` for one language: merge through `uniq`,
      then drop the canonical term. */
  function MergeAliases(curated: seq<string>, generated: seq<string>, canonical: string): (r: seq<string>)
    ensures NoDups(r) && AllClean(r) && canonical !in r
  {
    Without(Uniq(curated + generated), canonical)
  }

  /** The merged list meets `MergedFrom`. */
  lemma MergeAliasesSpec(curated: seq<string>, generated: seq<string>, canonical: string)
    ensures MergedFrom(MergeAliases(curated, generated, canonical), curated, generated, canonical)
  {
    var xs := curated + generated;
    var u := Uniq(xs);
    var r := Without(u, canonical);
    forall x | x in xs && Strip(x) != [] && Strip(x) != canonical ensures Strip(x) in r {
      UniqKeeps(xs, x);
    }
    forall a | a in r ensures exists x :: x in xs && Strip(x) == a {
      UniqSound(xs, a);
    }
    UniqSpec(xs);
    WithoutInOrder(u, canonical, StripAll(xs));
  }

  /** In a merged list the curated aliases come first: an alias taken from
      the curated list is never preceded by one that only the generator
      produced. */
  lemma MergeCuratedFirst(curated: seq<string>, generated: seq<string>, canonical: string)
    ensures var r := MergeAliases(curated, generated, canonical);
            forall k, l :: 0 <= k < l < |r| && r[l] in StripAll(curated) ==> r[k] in StripAll(curated)
  {
    var xs := curated + generated;
    var ys := StripAll(xs);
    var r := MergeAliases(curated, generated, canonical);
    MergeAliasesSpec(curated, generated, canonical);
    assert ys[..|curated|] == StripAll(curated);
    forall k, l | 0 <= k < l < |r| && r[l] in StripAll(curated) ensures r[k] in StripAll(curated) {
      var j :| 0 <= j < |curated| && StripAll(curated)[j] == r[l];
      assert ys[j] == r[l];
      assert FirstIndex(ys, r[k]) < FirstIndex(ys, r[l]) <= j;
      var i := FirstIndex(ys, r[k]);
      assert ys[i] == r[k];
      assert StripAll(curated)[i] == r[k];
    }
  }

  /** `build_entry(counter, scenario, ko, en, zh, ja)`, reading its data from `t`. */
  function BuildEntry(t: Tables, counter: int, scenario: string, s: Symptom): Entry {
    var cur := CurationOf(t.curated, s.ko);
    Entry(TermId(counter), "symptom", "tier1", scenario, s.ko, s.en, s.zh, s.ja,
      AliasLists(
        MergeAliases(cur.ko, AutoAliasesKo(s.ko, t.koRules), s.ko),
        MergeAliases(cur.en, AutoAliasesEn(s.en, t.enRules), s.en),
        MergeAliases(cur.zh, DefaultAliases(t.zhAliases, s.zh), s.zh),
        MergeAliases(cur.ja, DefaultAliases(t.jaAliases, s.ja), s.ja)))
  }

  /** The fixed fields of an entry: the id from the counter, the type
      "symptom", the priority "tier1", and the scenario and four canonical
      terms as given. */
  lemma BuildEntryFields(t: Tables, counter: int, scenario: string, s: Symptom)
    ensures var e := BuildEntry(t, counter, scenario, s);
            e.termId == TermId(counter) && e.kind == "symptom" && e.priority == "tier1" &&
            e.scenario == scenario && e.ko == s.ko && e.en == s.en && e.zh == s.zh && e.ja == s.ja
  {
  }

  /** What `build_entry` promises: per language, the curated aliases merged
      with the generated ones, cleaned and deduplicated, with the canonical
      term removed. */
  lemma BuildEntryAliases(t: Tables, counter: int, scenario: string, s: Symptom)
    ensures MergedFrom(BuildEntry(t, counter, scenario, s).aliases.ko, CurationOf(t.curated, s.ko).ko, AutoAliasesKo(s.ko, t.koRules), s.ko)
    ensures MergedFrom(BuildEntry(t, counter, scenario, s).aliases.en, CurationOf(t.curated, s.ko).en, AutoAliasesEn(s.en, t.enRules), s.en)
    ensures MergedFrom(BuildEntry(t, counter, scenario, s).aliases.zh, CurationOf(t.curated, s.ko).zh, DefaultAliases(t.zhAliases, s.zh), s.zh)
    ensures MergedFrom(BuildEntry(t, counter, scenario, s).aliases.ja, CurationOf(t.curated, s.ko).ja, DefaultAliases(t.jaAliases, s.ja), s.ja)
  {
    var c := CurationOf(t.curated, s.ko);
    MergeAliasesSpec(c.ko, AutoAliasesKo(s.ko, t.koRules), s.ko);
    MergeAliasesSpec(c.en, AutoAliasesEn(s.en, t.enRules), s.en);
    MergeAliasesSpec(c.zh, DefaultAliases(t.zhAliases, s.zh), s.zh);
    MergeAliasesSpec(c.ja, DefaultAliases(t.jaAliases, s.ja), s.ja);
  }

  // ---------------------------------------------------------------
  // The capped walk over the scenarios
  // ---------------------------------------------------------------

  /** One symptom together with the scenario it is listed under. */
  datatype PoolItem = PoolItem(scenario: string, symptom: Symptom)

  /** The items of one scenario, tagged with its name. */
  function Tagged(sc: Scenario): (r: seq<PoolItem>)
    ensures |r| == |sc.items|
    ensures forall k :: 0 <= k < |r| ==> r[k] == PoolItem(sc.name, sc.items[k])
  {
    seq(|sc.items|, k requires 0 <= k < |sc.items| => PoolItem(sc.name, sc.items[k]))
  }

  /** All symptoms of all scenarios, in iteration order. */
  function Pool(scs: seq<Scenario>): seq<PoolItem> {
    if scs == [] then [] else Pool(scs[..|scs| - 1]) + Tagged(scs[|scs| - 1])
  }

  /** The pool of the first `k` scenarios is a prefix of the whole pool. */
  lemma {:induction false} PoolPrefix(scs: seq<Scenario>, k: nat)
    requires k <= |scs|
    ensures Pool(scs[..k]) <= Pool(scs)
    decreases |scs|
  {
    if k < |scs| {
      var p := scs[..|scs| - 1];
      PoolPrefix(p, k);
      assert p[..k] == scs[..k];
    } else {
      assert scs[..k] == scs;
    }
  }

  /** Item `j` of scenario `i` sits in the pool right after the items of the
      scenarios before it. */
  lemma PoolIndex(scs: seq<Scenario>, i: nat, j: nat)
    requires i < |scs| && j < |scs[i].items|
    ensures |Pool(scs[..i])| + j < |Pool(scs)|
    ensures Pool(scs)[|Pool(scs[..i])| + j] == PoolItem(scs[i].name, scs[i].items[j])
  {
    PoolPrefix(scs, i + 1);
    var q := scs[..i + 1];
    assert q[..|q| - 1] == scs[..i];
    assert Pool(q) == Pool(scs[..i]) + Tagged(scs[i]);
  }

  /** The smaller of `max(m, 0)` and `n`: how many entries a cap of `m` lets through. */
  function Cap(m: int, n: nat): (c: nat)
    ensures c <= n
    ensures m <= 0 ==> c == 0
    ensures 0 <= m <= n ==> c == m
    ensures m >= n ==> c == n
  {
    if m <= 0 then 0 else if m < n then m else n
  }

  /** The first `n` pool items passed to `build`, numbered from 1. */
  function Built<T>(pool: seq<PoolItem>, n: nat, build: (int, string, Symptom) -> T): seq<T>
    requires n <= |pool|
  {
    seq(n, k requires 0 <= k < n => build(k + 1, pool[k].scenario, pool[k].symptom))
  }

  /** The per-item builder of the glossary: `build_entry` over the tables `t`. */
  function EntryBuilder(t: Tables): (int, string, Symptom) -> Entry {
    (c, sc, s) => BuildEntry(t, c, sc, s)
  }

  /** The glossary for a cap of `maxItems`: the first pool items, numbered from 1. */
  function Glossary(scs: seq<Scenario>, t: Tables, maxItems: int): (es: seq<Entry>)
    ensures |es| == Cap(maxItems, |Pool(scs)|)
  {
    Built(Pool(scs), Cap(maxItems, |Pool(scs)|), EntryBuilder(t))
  }

  /** A list of the right length whose entries are built from the pool items
      in order is `Built`. */
  lemma BuiltUnique<T>(pool: seq<PoolItem>, n: nat, build: (int, string, Symptom) -> T, es: seq<T>)
    requires n <= |pool| && |es| == n
    requires forall k :: 0 <= k < n ==> es[k] == build(k + 1, pool[k].scenario, pool[k].symptom)
    ensures es == Built(pool, n, build)
  {
  }

  /** The loop of `build_symptom_entries`, for any per-item builder: walk
      the scenarios in order, numbering items from 1, and stop as soon as the
      counter passes the cap. */
  method WalkScenarios<T>(scs: seq<Scenario>, maxItems: int, build: (int, string, Symptom) -> T)
    returns (out: seq<T>)
    ensures |out| == Cap(maxItems, |Pool(scs)|)
    ensures forall k :: 0 <= k < |out| ==> out[k] == build(k + 1, Pool(scs)[k].scenario, Pool(scs)[k].symptom)
  {
    ghost var pool := Pool(scs);
    out := [];
    var si := 0;
    while si < |scs|
      invariant 0 <= si <= |scs|
      invariant |out| == |Pool(scs[..si])| <= |pool|
      invariant maxItems >= 0 ==> |out| <= maxItems
      invariant maxItems < 0 ==> out == []
      invariant out == Built(pool, |out|, build)
    {
      PoolPrefix(scs, si + 1);
      assert scs[..si + 1][..si] == scs[..si];
      assert Pool(scs[..si + 1]) == Pool(scs[..si]) + Tagged(scs[si]);
      forall j | 0 <= j < |scs[si].items|
        ensures pool[|out| + j] == PoolItem(scs[si].name, scs[si].items[j])
      {
        PoolIndex(scs, si, j);
      }
      var stopped;
      out, stopped := WalkItems(pool, out, scs[si].name, scs[si].items, maxItems, build);
      if stopped {
        return;
      }
      si := si + 1;
    }
    assert scs[..si] == scs;
  }

  /** The inner loop over one scenario's items, which sit in the pool right
      after the entries built so far; `stopped` reports that the counter
      passed the cap. */
  method WalkItems<T>(ghost pool: seq<PoolItem>, out0: seq<T>, name: string, items: seq<Symptom>,
                      maxItems: int, build: (int, string, Symptom) -> T)
    returns (out: seq<T>, stopped: bool)
    requires |out0| + |items| <= |pool|
    requires forall j :: 0 <= j < |items| ==> pool[|out0| + j] == PoolItem(name, items[j])
    requires maxItems >= 0 ==> |out0| <= maxItems
    requires maxItems < 0 ==> out0 == []
    requires out0 == Built(pool, |out0|, build)
    ensures |out0| <= |out| <= |out0| + |items|
    ensures out == Built(pool, |out|, build)
    ensures maxItems >= 0 ==> |out| <= maxItems
    ensures maxItems < 0 ==> out == []
    ensures stopped ==> |out| == Cap(maxItems, |pool|)
    ensures !stopped ==> |out| == |out0| + |items|
  {
    out := out0;
    var counter := |out0| + 1;
    var ii := 0;
    while ii < |items|
      invariant 0 <= ii <= |items|
      invariant counter == |out| + 1
      invariant |out| == |out0| + ii
      invariant maxItems >= 0 ==> |out| <= maxItems
      invariant maxItems < 0 ==> out == []
      invariant out == Built(pool, |out|, build)
    {
      if counter > maxItems {
        return out, true;
      }
      BuiltNext(pool, |out|, build);
      out := out + [build(counter, name, items[ii])];
      counter := counter + 1;
      ii := ii + 1;
    }
    return out, false;
  }

  /** `Built` grows by one built item at a time. */
  lemma BuiltNext<T>(pool: seq<PoolItem>, n: nat, build: (int, string, Symptom) -> T)
    requires n < |pool|
    ensures Built(pool, n + 1, build) == Built(pool, n, build) + [build(n + 1, pool[n].scenario, pool[n].symptom)]
  {
  }

  /** `build_symptom_entries(max_items)`. */
  method BuildSymptomEntries(scs: seq<Scenario>, t: Tables, maxItems: int)
    returns (entries: seq<Entry>)
    ensures |entries| == Cap(maxItems, |Pool(scs)|)
    ensures forall k :: 0 <= k < |entries| ==>
              entries[k] == BuildEntry(t, k + 1, Pool(scs)[k].scenario, Pool(scs)[k].symptom)
    ensures entries == Glossary(scs, t, maxItems)
  {
    entries := WalkScenarios(scs, maxItems, EntryBuilder(t));
    GlossaryUnique(scs, t, maxItems, entries);
  }

  /** The glossary is the only list of that length whose entries are built
      from the pool items in order. */
  lemma GlossaryUnique(scs: seq<Scenario>, t: Tables, maxItems: int, es: seq<Entry>)
    requires |es| == Cap(maxItems, |Pool(scs)|)
    requires forall k :: 0 <= k < |es| ==>
               es[k] == BuildEntry(t, k + 1, Pool(scs)[k].scenario, Pool(scs)[k].symptom)
    ensures es == Glossary(scs, t, maxItems)
  {
    var pool := Pool(scs);
    forall k | 0 <= k < |es| ensures es[k] == EntryBuilder(t)(k + 1, pool[k].scenario, pool[k].symptom) { }
    BuiltUnique(pool, |es|, EntryBuilder(t), es);
  }

  /** A smaller cap gives a prefix of the glossary a larger cap gives. */
  lemma GlossaryPrefix(scs: seq<Scenario>, t: Tables, m1: int, m2: int)
    requires m1 <= m2
    ensures Glossary(scs, t, m1) <= Glossary(scs, t, m2)
  {
  }

  /** Entry `k` of a glossary carries the id of counter `k + 1`. */
  lemma GlossaryIds(scs: seq<Scenario>, t: Tables, maxItems: int)
    ensures forall k :: 0 <= k < |Glossary(scs, t, maxItems)| ==>
              Glossary(scs, t, maxItems)[k].termId == TermId(k + 1)
  {
  }

  /** Term ids in a glossary are pairwise distinct. */
  lemma GlossaryIdsDistinct(scs: seq<Scenario>, t: Tables, maxItems: int)
    ensures forall i, j :: 0 <= i < j < |Glossary(scs, t, maxItems)| ==>
              Glossary(scs, t, maxItems)[i].termId != Glossary(scs, t, maxItems)[j].termId
  {
    var g := Glossary(scs, t, maxItems);
    GlossaryIds(scs, t, maxItems);
    forall i, j | 0 <= i < j < |g| ensures g[i].termId != g[j].termId {
      TermIdInjective(i + 1, j + 1);
    }
  }

  /** Scenarios of `n` items each give a pool of `n` times their number. */
  lemma {:induction false} PoolUniform(scs: seq<Scenario>, n: nat)
    requires forall i :: 0 <= i < |scs| ==> |scs[i].items| == n
    ensures |Pool(scs)| == n * |scs|
  {
    if scs != [] {
      var p := scs[..|scs| - 1];
      assert forall i :: 0 <= i < |p| ==> p[i] == scs[i];
      PoolUniform(p, n);
      assert |Pool(scs)| == |Pool(p)| + |scs[|scs| - 1].items|;
    }
  }

  /** The shipped tables hold seven scenarios of fifteen symptoms. */
  lemma ScenarioSizes()
    ensures |SymptomScenarios| == 7
    ensures forall i :: 0 <= i < |SymptomScenarios| ==> |SymptomScenarios[i].items| == 15
  {
  }

  /** So the default cap of 150 keeps all 105 of them, whatever the tables. */
  lemma DefaultGlossarySize(t: Tables)
    ensures |Pool(SymptomScenarios)| == 105
    ensures |Glossary(SymptomScenarios, t, 150)| == 105
  {
    ScenarioSizes();
    PoolUniform(SymptomScenarios, 15);
  }
}
