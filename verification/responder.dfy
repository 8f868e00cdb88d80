/**
 * The assistant's canned answers to `@川小农 <question>`: a chain of keyword groups,
 * tested in order against the stripped question; the first group with a keyword that
 * occurs in the question picks the reply. The reply texts are fixed strings and are
 * kept opaque here, one constructor each.
 */
module Responder {
  import opened Wrappers
  import opened Text

  datatype Reply =
    | Intro                        // who the assistant is
    | CampusAddresses              // the three campus addresses
    | SchoolProfile                // general facts about the university
    | Majors                       // colleges and disciplines
    | SchoolHistory                // founding history
    | CampusLife                   // dormitories, canteens, facilities
    | Admissions                   // where to find admission information
    | StillLearning(asked: string) // the fallback, quoting the question as received

  const IntroKeywords: seq<string> := ["你是谁", "你是", "介绍", "名字", "小美"]
  const SchoolKeywords: seq<string> := ["川农大", "四川农业大学", "学校", "在哪里", "地址"]
  const AddressKeywords: seq<string> := ["地址", "在哪里"]
  const MajorKeywords: seq<string> := ["专业", "学科", "学院"]
  const HistoryKeywords: seq<string> := ["历史", "成立", "创建", "多少年"]
  const LifeKeywords: seq<string> := ["生活", "宿舍", "食堂", "校园"]
  const AdmissionKeywords: seq<string> := ["招生", "分数线", "报考", "录取"]

  /** `any(keyword in q for keyword in keywords)`. */
  predicate MentionsAny(q: string, keywords: seq<string>) {
    exists k :: k in keywords && Contains(q, k)
  }

  /**
   * The reply to the text after the command's first space. Matching looks at the
   * stripped text; the fallback quotes the text unstripped.
   */
  function Respond(asked: string): (r: Reply)
    ensures var q := Strip(asked);
      r.StillLearning? <==>
        && !MentionsAny(q, IntroKeywords) && !MentionsAny(q, SchoolKeywords)
        && !MentionsAny(q, MajorKeywords) && !MentionsAny(q, HistoryKeywords)
        && !MentionsAny(q, LifeKeywords) && !MentionsAny(q, AdmissionKeywords)
    ensures r.StillLearning? ==> r.asked == asked

  {
    var q := Strip(asked);
    if MentionsAny(q, IntroKeywords) then Intro
    else if MentionsAny(q, SchoolKeywords) then
      if Contains(q, "地址") || Contains(q, "在哪里") then CampusAddresses else SchoolProfile
    else if MentionsAny(q, MajorKeywords) then Majors
    else if MentionsAny(q, HistoryKeywords) then SchoolHistory
    else if MentionsAny(q, LifeKeywords) then CampusLife
    else if MentionsAny(q, AdmissionKeywords) then Admissions
    else StillLearning(asked)
  }

  /** One line of a reply table: any of `keywords` selects `reply`. */
  datatype Rule = Rule(keywords: seq<string>, reply: Reply)

  /**
   * The responder as a flat first-match table. The address answer is its own rule,
   * ahead of the general school rule that shares its keywords.
   */
  const Rules: seq<Rule> := [
    Rule(IntroKeywords, Intro),
    Rule(AddressKeywords, CampusAddresses),
    Rule(SchoolKeywords, SchoolProfile),
    Rule(MajorKeywords, Majors),
    Rule(HistoryKeywords, SchoolHistory),
    Rule(LifeKeywords, CampusLife),
    Rule(AdmissionKeywords, Admissions)
  ]

  /** The reply of the first rule, from position `from` on, that matches `q`, if any. */
  function FirstMatch(rules: seq<Rule>, from: nat, q: string): (r: Option<Reply>)
    ensures r.None? <==> forall i :: from <= i < |rules| ==> !MentionsAny(q, rules[i].keywords)
    ensures r.Some? ==> exists i :: from <= i < |rules| && MentionsAny(q, rules[i].keywords)
                                   && rules[i].reply == r.value
                                   && forall j :: from <= j < i ==> !MentionsAny(q, rules[j].keywords)
    decreases |rules| - from
  {
    if from >= |rules| then None
    else if MentionsAny(q, rules[from].keywords) then Some(rules[from].reply)
    else FirstMatch(rules, from + 1, q)
  }

  /**
   * The if-chain answers exactly as the first-match table: the first group, in source
   * order, with a keyword in the question decides, and no match means the fallback.
   */
  lemma RespondIsFirstMatch(asked: string)
    ensures Respond(asked) == FirstMatch(Rules, 0, Strip(asked)).GetOr(StillLearning(asked))
  {
    var q := Strip(asked);
    AddressIsSchool(q);
    TableFrom(q);
  }

  /** The address keywords are school keywords too, so the address rule refines the school rule. */
  lemma AddressIsSchool(q: string)
    ensures MentionsAny(q, AddressKeywords) <==> Contains(q, "地址") || Contains(q, "在哪里")
    ensures MentionsAny(q, AddressKeywords) ==> MentionsAny(q, SchoolKeywords)
  {
    assert AddressKeywords[0] == "地址" && AddressKeywords[1] == "在哪里";
    assert SchoolKeywords[4] == "地址" && SchoolKeywords[3] == "在哪里";
  }

  /** The table read as a chain of tests, one rule at a time. */
  lemma TableFrom(q: string)
    ensures FirstMatch(Rules, 0, q) ==
      if MentionsAny(q, IntroKeywords) then Some(Intro)
      else if MentionsAny(q, AddressKeywords) then Some(CampusAddresses)
      else if MentionsAny(q, SchoolKeywords) then Some(SchoolProfile)
      else if MentionsAny(q, MajorKeywords) then Some(Majors)
      else if MentionsAny(q, HistoryKeywords) then Some(SchoolHistory)
      else if MentionsAny(q, LifeKeywords) then Some(CampusLife)
      else if MentionsAny(q, AdmissionKeywords) then Some(Admissions)
      else None
  {
    var rules := Rules;
    assert FirstMatch(rules, 7, q) == None;
    var m6 := if MentionsAny(q, AdmissionKeywords) then Some(Admissions) else None;
    assert FirstMatch(rules, 6, q) == m6;
    var m5 := if MentionsAny(q, LifeKeywords) then Some(CampusLife) else m6;
    assert FirstMatch(rules, 5, q) == m5;
    var m4 := if MentionsAny(q, HistoryKeywords) then Some(SchoolHistory) else m5;
    assert FirstMatch(rules, 4, q) == m4;
    var m3 := if MentionsAny(q, MajorKeywords) then Some(Majors) else m4;
    assert FirstMatch(rules, 3, q) == m3;
    var m2 := if MentionsAny(q, SchoolKeywords) then Some(SchoolProfile) else m3;
    assert FirstMatch(rules, 2, q) == m2;
    var m1 := if MentionsAny(q, AddressKeywords) then Some(CampusAddresses) else m2;
    assert FirstMatch(rules, 1, q) == m1;
  }
}
