/**
 * The cost categories of an operating-cost statement, each with the key by
 * which its cost is split among tenants, and the classifier that picks a
 * category by scanning the classification call's free-text reply.
 */
module CostCategories {
  import opened Wrappers
  import opened PyText
  import opened OracleReplies

  /** The names of `ALLOCATION_KEYS`, in declaration order: `list(ALLOCATION_KEYS.keys())`. */
  const Categories: seq<string> := [
    "Grundsteuer", "Kaltwasser", "Entwässerung", "Heizkosten", "Warmwasserversorgung", "Hausmeister",
    "Sach- & Haftpflichtversicherung", "Müllabfuhr", "Aufzüge", "Straßenreinigung", "Gebäudereinigung",
    "Gartenpflege", "Beleuchtung", "Schornsteinfeger"
  ]

  /** The values of `ALLOCATION_KEYS`: `AllocationKeys[i]` is the allocation key of `Categories[i]`. */
  const AllocationKeys: seq<string> := [
    "Wohnfläche in qm", "Verbrauch", "Wohnfläche in qm", "Verbrauch", "Verbrauch", "Anzahl Wohneinheiten",
    "Anzahl Wohneinheiten", "Anzahl Wohneinheiten", "Anzahl Wohneinheiten - Erdgeschoss", "Anzahl Wohneinheiten",
    "Wohnfläche in qm", "Wohnfläche in qm", "Wohnfläche in qm", "Wohnfläche in qm"
  ]

  /** The category reported when the reply names none of the table's categories. */
  const Fallback := "Sonstiges"

  /** The allocation key of a category the table does not list. */
  const UnknownKey := "Unknown"

  /** The position of the first occurrence of `name` in `names`. */
  function IndexOf(names: seq<string>, name: string): (r: Option<nat>)
    ensures r.None? <==> name !in names
    ensures r.Some? ==> r.value < |names| && names[r.value] == name
  {
    if names == [] then None
    else if names[0] == name then Some(0)
    else match IndexOf(names[1..], name)
      case Some(i) => Some(i + 1)
      case None => None
  }

  /** `ALLOCATION_KEYS.get(category, "Unknown")`. */
  function AllocationKey(category: string): (key: string)
    ensures key in AllocationKeys || key == UnknownKey
    ensures category !in Categories ==> key == UnknownKey
  {
    match IndexOf(Categories, category)
    case Some(i) => if i < |AllocationKeys| then AllocationKeys[i] else UnknownKey
    case None => UnknownKey
  }

  /** The table pairs each of its 14 distinct names with one key; no key is "Unknown" and no name is the fallback. */
  lemma TableFacts()
    ensures |Categories| == |AllocationKeys| == 14
    ensures forall i, j :: 0 <= i < j < |Categories| ==> Categories[i] != Categories[j]
    ensures forall i :: 0 <= i < |AllocationKeys| ==> AllocationKeys[i] != UnknownKey
    ensures Fallback !in Categories
  {
  }

  /**
   * Every listed category gets the allocation key the table gives it, and
   * "Unknown" is the key of exactly the categories outside the table, the
   * fallback among them.
   */
  lemma AllocationKeyTotal(category: string)
    ensures forall i :: 0 <= i < |Categories| && Categories[i] == category ==> AllocationKey(category) == AllocationKeys[i]
    ensures category !in Categories <==> AllocationKey(category) == UnknownKey
    ensures AllocationKey(Fallback) == UnknownKey
  {
    TableFacts();
    var r := IndexOf(Categories, category);
    if r.Some? {
      assert forall i :: 0 <= i < |Categories| && Categories[i] == category ==> i == r.value;
    }
  }

  /** `c.lower() in content.lower()`. */
  predicate Mentioned(content: string, category: string) {
    Contains(Lower(content), Lower(category))
  }

  /** The first of `cats`, in order, that the reply mentions. */
  function FirstMentioned(content: string, cats: seq<string>): (r: Option<string>)
    ensures r.Some? ==> r.value in cats && Mentioned(content, r.value)
  {
    if cats == [] then None
    else if Mentioned(content, cats[0]) then Some(cats[0])
    else FirstMentioned(content, cats[1..])
  }

  /** The category `determine_cost_category` reads out of the classifier's reply. */
  function Categorize(content: string): (c: string)
    ensures c in Categories || c == Fallback
    ensures c != Fallback ==> Mentioned(content, c)
  {
    match FirstMentioned(content, Categories)
    case Some(c) => c
    case None => Fallback
  }

  /** The result of `determine_cost_category(text)`; `None` when the classification call raises. */
  function CostCategory(text: string, classify: string -> Reply): Option<string> {
    match classify(text)
    case CallFailed(_) => None
    case Answer(content) => Some(Categorize(content))
  }

  lemma {:induction false} FirstMentionedIsFirst(content: string, cats: seq<string>)
    ensures FirstMentioned(content, cats).None? <==> forall i :: 0 <= i < |cats| ==> !Mentioned(content, cats[i])
    ensures FirstMentioned(content, cats).Some? ==>
      exists i :: 0 <= i < |cats| && cats[i] == FirstMentioned(content, cats).value && Mentioned(content, cats[i])
                  && forall j :: 0 <= j < i ==> !Mentioned(content, cats[j])
  {
    if cats != [] && !Mentioned(content, cats[0]) {
      FirstMentionedIsFirst(content, cats[1..]);
      assert forall i :: 1 <= i < |cats| ==> cats[i] == cats[1..][i - 1];
      if FirstMentioned(content, cats).Some? {
        var i :| 0 <= i < |cats[1..]| && cats[1..][i] == FirstMentioned(content, cats).value
                 && Mentioned(content, cats[1..][i]) && forall j :: 0 <= j < i ==> !Mentioned(content, cats[1..][j]);
        assert cats[i + 1] == cats[1..][i];
        assert forall j :: 1 <= j < i + 1 ==> !Mentioned(content, cats[j]);
      }
    }
  }

  /**
   * The classifier returns the first category, in table order, whose
   * lower-case name occurs in the lower-cased reply, and "Sonstiges"
   * exactly when none does; its allocation key is then the table's entry,
   * or "Unknown" exactly for "Sonstiges".
   */
  lemma CategorizeIsFirstMention(content: string)
    ensures var c := Categorize(content);
      && (c == Fallback <==> forall i :: 0 <= i < |Categories| ==> !Mentioned(content, Categories[i]))
      && (c != Fallback ==>
            exists i :: 0 <= i < |Categories| && Categories[i] == c && Mentioned(content, c)
                        && forall j :: 0 <= j < i ==> !Mentioned(content, Categories[j]))
      && (c in Categories || c == Fallback)
      && (AllocationKey(c) == UnknownKey <==> c == Fallback)
  {
    FirstMentionedIsFirst(content, Categories);
    TableFacts();
    AllocationKeyTotal(Categorize(content));
  }

  /** `determine_cost_category`: one classification call, then a scan of the categories in order. */
  method DetermineCostCategory(text: string, classify: string -> Reply) returns (category: Option<string>)
    ensures category == CostCategory(text, classify)
  {
    var response := classify(text);
    if response.CallFailed? {
      return None;
    }
    var content := response.content;
    var categories := Categories;
    for i := 0 to |categories|
      invariant FirstMentioned(content, categories[i..]) == FirstMentioned(content, categories)
    {
      assert categories[i..][0] == categories[i] && categories[i..][1..] == categories[i + 1..];
      if Contains(Lower(content), Lower(categories[i])) {
        return Some(categories[i]);
      }
    }
    return Some(Fallback);
  }
}
