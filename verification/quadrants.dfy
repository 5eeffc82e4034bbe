/**
  The Eisenhower classifier of the schedule view: a free-text category is
  lower-cased and trimmed, then four substring rules pick a quadrant. The
  view uses the rules twice, once for the card colour and once for the
  label, and shows the label only on user tasks that fall in a quadrant.
 */
module Quadrants {
  import opened Strings
  import opened Tasks

  datatype Option<T> = None | Some(value: T)

  /** The four quadrants of the matrix. */
  datatype Quadrant = DoFirst | Schedule | Delegate | Eliminate

  /** `category.toLowerCase().trim()`. */
  function Normalize(category: string): string {
    Trim(ToLower(category))
  }

  /** "Urgent & Important" or "Important & Urgent". */
  predicate IsDoFirst(n: string) {
    Contains(n, "urgent") && Contains(n, "important")
    && !Contains(n, "not urgent") && !Contains(n, "not important")
  }

  /** "Not Urgent & Important" or "Important & Not Urgent". */
  predicate IsSchedule(n: string) {
    Contains(n, "not urgent") && Contains(n, "important") && !Contains(n, "not important")
  }

  /** "Urgent & Not Important" or "Not Important & Urgent". */
  predicate IsDelegate(n: string) {
    Contains(n, "urgent") && Contains(n, "not important") && !Contains(n, "not urgent")
  }

  /** "Not Urgent & Not Important" or "Not Important & Not Urgent". */
  predicate IsEliminate(n: string) {
    Contains(n, "not urgent") && Contains(n, "not important")
  }

  /** The rule that, on its own, defines each quadrant. */
  predicate InQuadrant(n: string, q: Quadrant) {
    match q
    case DoFirst => IsDoFirst(n)
    case Schedule => IsSchedule(n)
    case Delegate => IsDelegate(n)
    case Eliminate => IsEliminate(n)
  }

  /** No rule holds: the label is N/A. */
  predicate Unclassified(n: string) {
    !IsDoFirst(n) && !IsSchedule(n) && !IsDelegate(n) && !IsEliminate(n)
  }

  /** The text the view prints for each quadrant. */
  function LabelOf(q: Quadrant): string {
    match q
    case DoFirst => "DO FIRST"
    case Schedule => "SCHEDULE"
    case Delegate => "DELEGATE"
    case Eliminate => "ELIMINATE"
  }

  const Unlabelled := "N/A"
  const CalendarEventColor := "bg-gray-100 border-gray-400"
  const PlainColor := "bg-white text-black border-black"

  /** The card colour for each label; ELIMINATE and N/A share one. */
  function ColorOfLabel(text: string): string {
    if text == "DO FIRST" then "bg-[#FF005C] text-white"
    else if text == "SCHEDULE" then "bg-[#00F0FF] text-black"
    else if text == "DELEGATE" then "bg-yellow-300 text-black"
    else PlainColor
  }

  /** `getCategoryColor`: calendar events are grey whatever their category. */
  function CategoryColor(category: string, isUserTask: bool): (r: string)
    ensures !isUserTask ==> r == CalendarEventColor
    ensures isUserTask ==> r != CalendarEventColor
  {
    if !isUserTask then CalendarEventColor
    else
      var normalized := Normalize(category);
      if IsDoFirst(normalized) then "bg-[#FF005C] text-white"
      else if IsSchedule(normalized) then "bg-[#00F0FF] text-black"
      else if IsDelegate(normalized) then "bg-yellow-300 text-black"
      else if IsEliminate(normalized) then PlainColor
      else PlainColor
  }

  /** `getCategoryLabel`: one of the four quadrant labels, or N/A. */
  function CategoryLabel(category: string): (r: string)
    ensures r in {Unlabelled, "DO FIRST", "SCHEDULE", "DELEGATE", "ELIMINATE"}
  {
    NormalLabel(Normalize(category))
  }

  /** The rule chain of `getCategoryLabel`, applied to the normalised category. */
  function NormalLabel(normalized: string): string {
    if IsDoFirst(normalized) then "DO FIRST"
    else if IsSchedule(normalized) then "SCHEDULE"
    else if IsDelegate(normalized) then "DELEGATE"
    else if IsEliminate(normalized) then "ELIMINATE"
    else Unlabelled
  }

  /** The label chip of a card: shown only on user tasks with a quadrant. */
  function ShownLabel(t: Task): Option<string> {
    var text := CategoryLabel(t.eisenhowerCategory);
    if t.isUserTask && text != Unlabelled then Some(text) else None
  }

  /** At most one quadrant rule holds of any text. */
  lemma QuadrantsExclusive(n: string, q1: Quadrant, q2: Quadrant)
    requires InQuadrant(n, q1) && InQuadrant(n, q2)
    ensures q1 == q2
  {
  }

  /**
    The label names exactly the quadrant whose own rule holds, so the order
    in which the view tries the rules does not matter; N/A means no rule
    holds.
   */
  lemma LabelIsQuadrant(category: string, q: Quadrant)
    ensures CategoryLabel(category) == LabelOf(q) <==> InQuadrant(Normalize(category), q)
    ensures CategoryLabel(category) == Unlabelled <==> Unclassified(Normalize(category))
  {
  }

  /** For a user task the colour is the one that goes with its label. */
  lemma ColorFollowsLabel(category: string)
    ensures CategoryColor(category, true) == ColorOfLabel(CategoryLabel(category))
  {
  }

  /** A label is shown exactly for a user task whose category is in a quadrant. */
  lemma ShownLabelMeaning(t: Task, q: Quadrant)
    ensures ShownLabel(t) == Some(LabelOf(q)) <==>
              t.isUserTask && InQuadrant(Normalize(t.eisenhowerCategory), q)
    ensures ShownLabel(t) == None <==>
              !t.isUserTask || Unclassified(Normalize(t.eisenhowerCategory))
  {
    LabelIsQuadrant(t.eisenhowerCategory, q);
  }

  /** Each negated phrase contains the plain word, and the short parts used below. */
  lemma PhraseParts()
    ensures Contains("not urgent", "urgent") && Contains("not important", "important")
    ensures Contains("not urgent", "no") && Contains("not important", "no")
    ensures Contains("not urgent", "not u") && Contains("not important", "not i")
  {
    ContainsAt("not urgent", "urgent", 4);
    ContainsAt("not important", "important", 4);
    ContainsAt("not urgent", "no", 0);
    ContainsAt("not important", "no", 0);
    ContainsAt("not urgent", "not u", 0);
    ContainsAt("not important", "not i", 0);
  }

  /**
    Each negated phrase contains the plain one, so every category that gets
    a quadrant mentions both "urgent" and "important".
   */
  lemma {:induction false} ClassifiedMentionsBoth(category: string)
    requires CategoryLabel(category) != Unlabelled
    ensures Contains(Normalize(category), "urgent")
    ensures Contains(Normalize(category), "important")
  {
    var n := Normalize(category);
    assert !Unclassified(n);
    PhraseParts();
    if Contains(n, "not urgent") {
      ContainsTransitive(n, "not urgent", "urgent");
    }
    if Contains(n, "not important") {
      ContainsTransitive(n, "not important", "important");
    }
  }

  /** Trimming is irrelevant: no rule phrase starts or ends with white space. */
  lemma {:induction false} TrimIsIrrelevant(category: string, q: Quadrant)
    ensures InQuadrant(Normalize(category), q) <==> InQuadrant(ToLower(category), q)
  {
    PhrasesSurviveTrim(ToLower(category));
  }

  lemma {:induction false} PhrasesSurviveTrim(l: string)
    ensures Contains(Trim(l), "urgent") <==> Contains(l, "urgent")
    ensures Contains(Trim(l), "important") <==> Contains(l, "important")
    ensures Contains(Trim(l), "not urgent") <==> Contains(l, "not urgent")
    ensures Contains(Trim(l), "not important") <==> Contains(l, "not important")
  {
    WordSurvivesTrim(l, "urgent");
    WordSurvivesTrim(l, "important");
    WordSurvivesTrim(l, "not urgent");
    WordSurvivesTrim(l, "not important");
  }

  lemma WordSurvivesTrim(l: string, w: string)
    requires w in {"urgent", "important", "not urgent", "not important"}
    ensures Contains(Trim(l), w) <==> Contains(l, w)
  {
    assert w[0] in {'u', 'i', 'n'} && w[|w| - 1] == 't';
    ContainsTrim(l, w);
  }

  /** Classification ignores letter case. */
  lemma {:induction false} LabelIgnoresCase(category: string)
    ensures CategoryLabel(ToLower(category)) == CategoryLabel(category)
    ensures CategoryColor(ToLower(category), true) == CategoryColor(category, true)
  {
    NormalizeLower(category);
    SameNormal(ToLower(category), category);
  }

  lemma NormalizeLower(category: string)
    ensures Normalize(ToLower(category)) == Normalize(category)
  {
    ToLowerIdempotent(category);
  }

  /** Label and colour depend on the category only through its normal form. */
  lemma SameNormal(a: string, b: string)
    requires Normalize(a) == Normalize(b)
    ensures CategoryLabel(a) == CategoryLabel(b)
    ensures CategoryColor(a, true) == CategoryColor(b, true)
  {
    ColorFollowsLabel(a);
    ColorFollowsLabel(b);
  }

  /** A category whose lower-case letters are n, which has no white space at either end. */
  lemma {:induction false} Lowered(category: string, n: string)
    requires |category| == |n| && n != []
    requires forall i :: 0 <= i < |n| ==> LowerChar(category[i]) == n[i]
    requires !IsJsSpace(n[0]) && !IsJsSpace(n[|n| - 1])
    ensures Normalize(category) == n
  {
    assert ToLower(category) == n;
  }

  /** DO FIRST from an occurrence of each word and no "no" anywhere. */
  lemma DoFirstFrom(n: string, u: nat, i: nat)
    requires OccursAt(n, "urgent", u) && OccursAt(n, "important", i) && !Contains(n, "no")
    ensures IsDoFirst(n)
  {
    PhraseParts();
    NotContainsPart(n, "no", "not urgent");
    NotContainsPart(n, "no", "not important");
  }

  /** SCHEDULE from an occurrence of "not urgent" and of "important", and no "not i". */
  lemma ScheduleFrom(n: string, nu: nat, i: nat)
    requires OccursAt(n, "not urgent", nu) && OccursAt(n, "important", i) && !Contains(n, "not i")
    ensures IsSchedule(n)
  {
    PhraseParts();
    NotContainsPart(n, "not i", "not important");
  }

  /** DELEGATE from an occurrence of "urgent" and of "not important", and no "not u". */
  lemma DelegateFrom(n: string, u: nat, ni: nat)
    requires OccursAt(n, "urgent", u) && OccursAt(n, "not important", ni) && !Contains(n, "not u")
    ensures IsDelegate(n)
  {
    PhraseParts();
    NotContainsPart(n, "not u", "not urgent");
  }

  /** ELIMINATE from an occurrence of both negated phrases. */
  lemma EliminateFrom(n: string, nu: nat, ni: nat)
    requires OccursAt(n, "not urgent", nu) && OccursAt(n, "not important", ni)
    ensures IsEliminate(n)
  {
  }

  /** The label and colour of a category whose normal form satisfies the rule of q. */
  lemma LabelFromRule(category: string, n: string, q: Quadrant)
    requires Normalize(category) == n && InQuadrant(n, q)
    ensures CategoryLabel(category) == LabelOf(q)
    ensures CategoryColor(category, true) == ColorOfLabel(LabelOf(q))
  {
    LabelIsQuadrant(category, q);
    ColorFollowsLabel(category);
  }

  lemma {:induction false} UrgentImportantText(c: string)
    requires c == "Urgent & Important"
    ensures Normalize(c) == "urgent & important"
  {
    Lowered(c, "urgent & important");
  }

  lemma UrgentImportantRule(n: string)
    requires n == "urgent & important"
    ensures IsDoFirst(n)
  {
    NotContainsByProbe(n, "no", 1);
    assert n[0..6] == "urgent";
    assert n[9..18] == "important";
    DoFirstFrom(n, 0, 9);
  }

  /** The comment at line 59: "Urgent & Important" is DO FIRST. */
  lemma {:induction false} UrgentImportantIsDoFirst(c: string)
    requires c == "Urgent & Important"
    ensures CategoryLabel(c) == "DO FIRST"
    ensures CategoryColor(c, true) == "bg-[#FF005C] text-white"
  {
    UrgentImportantText(c);
    var n := Normalize(c);
    UrgentImportantRule(n);
    LabelFromRule(c, n, DoFirst);
  }

  lemma {:induction false} ImportantUrgentText(c: string)
    requires c == "Important & Urgent"
    ensures Normalize(c) == "important & urgent"
  {
    Lowered(c, "important & urgent");
  }

  lemma ImportantUrgentRule(n: string)
    requires n == "important & urgent"
    ensures IsDoFirst(n)
  {
    NotContainsByProbe(n, "no", 1);
    assert n[12..18] == "urgent";
    assert n[0..9] == "important";
    DoFirstFrom(n, 12, 0);
  }

  /** The same case written the other way round. */
  lemma {:induction false} ImportantUrgentIsDoFirst(c: string)
    requires c == "Important & Urgent"
    ensures CategoryLabel(c) == "DO FIRST"
    ensures CategoryColor(c, true) == "bg-[#FF005C] text-white"
  {
    ImportantUrgentText(c);
    var n := Normalize(c);
    ImportantUrgentRule(n);
    LabelFromRule(c, n, DoFirst);
  }

  lemma {:induction false} NotUrgentImportantText(c: string)
    requires c == "Not Urgent & Important"
    ensures Normalize(c) == "not urgent & important"
  {
    Lowered(c, "not urgent & important");
  }

  lemma NotUrgentImportantRule(n: string)
    requires n == "not urgent & important"
    ensures IsSchedule(n)
  {
    NotContainsByProbe(n, "not i", 4);
    assert n[0..10] == "not urgent";
    assert n[13..22] == "important";
    ScheduleFrom(n, 0, 13);
  }

  /** The comment at line 65: "Not Urgent & Important" is SCHEDULE. */
  lemma {:induction false} NotUrgentImportantIsSchedule(c: string)
    requires c == "Not Urgent & Important"
    ensures CategoryLabel(c) == "SCHEDULE"
    ensures CategoryColor(c, true) == "bg-[#00F0FF] text-black"
  {
    NotUrgentImportantText(c);
    var n := Normalize(c);
    NotUrgentImportantRule(n);
    LabelFromRule(c, n, Schedule);
  }

  lemma {:induction false} ImportantNotUrgentText(c: string)
    requires c == "Important & Not Urgent"
    ensures Normalize(c) == "important & not urgent"
  {
    Lowered(c, "important & not urgent");
  }

  lemma ImportantNotUrgentRule(n: string)
    requires n == "important & not urgent"
    ensures IsSchedule(n)
  {
    NotContainsByProbe(n, "not i", 4);
    assert n[12..22] == "not urgent";
    assert n[0..9] == "important";
    ScheduleFrom(n, 12, 0);
  }

  /** The same case written the other way round. */
  lemma {:induction false} ImportantNotUrgentIsSchedule(c: string)
    requires c == "Important & Not Urgent"
    ensures CategoryLabel(c) == "SCHEDULE"
    ensures CategoryColor(c, true) == "bg-[#00F0FF] text-black"
  {
    ImportantNotUrgentText(c);
    var n := Normalize(c);
    ImportantNotUrgentRule(n);
    LabelFromRule(c, n, Schedule);
  }

  lemma {:induction false} UrgentNotImportantText(c: string)
    requires c == "Urgent & Not Important"
    ensures Normalize(c) == "urgent & not important"
  {
    Lowered(c, "urgent & not important");
  }

  lemma UrgentNotImportantRule(n: string)
    requires n == "urgent & not important"
    ensures IsDelegate(n)
  {
    NotContainsByProbe(n, "not u", 4);
    assert n[0..6] == "urgent";
    assert n[9..22] == "not important";
    DelegateFrom(n, 0, 9);
  }

  /** The comment at line 70: "Urgent & Not Important" is DELEGATE. */
  lemma {:induction false} UrgentNotImportantIsDelegate(c: string)
    requires c == "Urgent & Not Important"
    ensures CategoryLabel(c) == "DELEGATE"
    ensures CategoryColor(c, true) == "bg-yellow-300 text-black"
  {
    UrgentNotImportantText(c);
    var n := Normalize(c);
    UrgentNotImportantRule(n);
    LabelFromRule(c, n, Delegate);
  }

  lemma {:induction false} NotImportantUrgentText(c: string)
    requires c == "Not Important & Urgent"
    ensures Normalize(c) == "not important & urgent"
  {
    Lowered(c, "not important & urgent");
  }

  lemma NotImportantUrgentRule(n: string)
    requires n == "not important & urgent"
    ensures IsDelegate(n)
  {
    NotContainsByProbe(n, "not u", 4);
    assert n[16..22] == "urgent";
    assert n[0..13] == "not important";
    DelegateFrom(n, 16, 0);
  }

  /** The same case written the other way round. */
  lemma {:induction false} NotImportantUrgentIsDelegate(c: string)
    requires c == "Not Important & Urgent"
    ensures CategoryLabel(c) == "DELEGATE"
    ensures CategoryColor(c, true) == "bg-yellow-300 text-black"
  {
    NotImportantUrgentText(c);
    var n := Normalize(c);
    NotImportantUrgentRule(n);
    LabelFromRule(c, n, Delegate);
  }

  lemma {:induction false} NotUrgentNotImportantText(c: string)
    requires c == "Not Urgent & Not Important"
    ensures Normalize(c) == "not urgent & not important"
  {
    Lowered(c, "not urgent & not important");
  }

  lemma NotUrgentNotImportantRule(n: string)
    requires n == "not urgent & not important"
    ensures IsEliminate(n)
  {
    assert n[0..10] == "not urgent";
    assert n[13..26] == "not important";
    EliminateFrom(n, 0, 13);
  }

  /** The comment at line 75: "Not Urgent & Not Important" is ELIMINATE. */
  lemma {:induction false} NotUrgentNotImportantIsEliminate(c: string)
    requires c == "Not Urgent & Not Important"
    ensures CategoryLabel(c) == "ELIMINATE"
    ensures CategoryColor(c, true) == PlainColor
  {
    NotUrgentNotImportantText(c);
    var n := Normalize(c);
    NotUrgentNotImportantRule(n);
    LabelFromRule(c, n, Eliminate);
  }

  lemma {:induction false} NotImportantNotUrgentText(c: string)
    requires c == "Not Important & Not Urgent"
    ensures Normalize(c) == "not important & not urgent"
  {
    Lowered(c, "not important & not urgent");
  }

  lemma NotImportantNotUrgentRule(n: string)
    requires n == "not important & not urgent"
    ensures IsEliminate(n)
  {
    assert n[16..26] == "not urgent";
    assert n[0..13] == "not important";
    EliminateFrom(n, 16, 0);
  }

  /** The same case written the other way round. */
  lemma {:induction false} NotImportantNotUrgentIsEliminate(c: string)
    requires c == "Not Important & Not Urgent"
    ensures CategoryLabel(c) == "ELIMINATE"
    ensures CategoryColor(c, true) == PlainColor
  {
    NotImportantNotUrgentText(c);
    var n := Normalize(c);
    NotImportantNotUrgentRule(n);
    LabelFromRule(c, n, Eliminate);
  }

  lemma {:induction false} UrgentUnimportantText(c: string)
    requires c == "Urgent & Unimportant"
    ensures Normalize(c) == "urgent & unimportant"
  {
    Lowered(c, "urgent & unimportant");
  }

  lemma UrgentUnimportantRule(n: string)
    requires n == "urgent & unimportant"
    ensures IsDoFirst(n)
  {
    NotContainsByProbe(n, "no", 1);
    assert n[0..6] == "urgent";
    assert n[11..20] == "important";
    DoFirstFrom(n, 0, 11);
  }

  /**
    The rules look for substrings, not words: "Unimportant" contains
    "important", so "Urgent & Unimportant" is classified DO FIRST.
   */
  lemma {:induction false} UnimportantCountsAsImportant(c: string)
    requires c == "Urgent & Unimportant"
    ensures CategoryLabel(c) == "DO FIRST"
    ensures CategoryColor(c, true) == "bg-[#FF005C] text-white"
  {
    UrgentUnimportantText(c);
    var n := Normalize(c);
    UrgentUnimportantRule(n);
    LabelFromRule(c, n, DoFirst);
  }

  lemma {:induction false} NeitherNorText(c: string)
    requires c == "Neither Urgent Nor Important"
    ensures Normalize(c) == "neither urgent nor important"
  {
    Lowered(c, "neither urgent nor important");
  }

  lemma NeitherNorRule(n: string)
    requires n == "neither urgent nor important"
    ensures IsDoFirst(n)
  {
    assert n[8..14] == "urgent";
    assert n[19..28] == "important";
    ContainsAt(n, "urgent", 8);
    ContainsAt(n, "important", 19);
    NotContainsByProbe(n, "not u", 2);
    NotContainsByProbe(n, "not i", 2);
    PhraseParts();
    NotContainsPart(n, "not u", "not urgent");
    NotContainsPart(n, "not i", "not important");
  }

  /**
    The legend's fourth quadrant is titled "Neither Urgent Nor Important",
    but that text holds both words and neither "not" phrase, so a task
    given it as its category is classified DO FIRST, not ELIMINATE.
   */
  lemma {:induction false} NeitherNorIsDoFirst(c: string)
    requires c == "Neither Urgent Nor Important"
    ensures CategoryLabel(c) == "DO FIRST"
    ensures CategoryColor(c, true) == "bg-[#FF005C] text-white"
  {
    NeitherNorText(c);
    var n := Normalize(c);
    NeitherNorRule(n);
    LabelFromRule(c, n, DoFirst);
  }
}
