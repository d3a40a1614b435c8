/**
 * The closed set of drink categories, its declaration-order ordinals, its
 * names, and the case-insensitive name parser the category endpoint uses.
 */
module Categories {
  import opened Wrappers
  import opened Text

  datatype Category =
    | MilkTea
    | MilkTeaClassics
    | FruitTea
    | CheeseTea
    | SpecialLattes
    | SeasonalSpecials

  /** The categories in declaration order. */
  const AllCategories: seq<Category> :=
    [MilkTea, MilkTeaClassics, FruitTea, CheeseTea, SpecialLattes, SeasonalSpecials]

  /** The underlying integer value of each enum member: its position in the
      declaration, counting from zero. */
  function Ordinal(c: Category): (n: nat) {
    match c
    case MilkTea => 0
    case MilkTeaClassics => 1
    case FruitTea => 2
    case CheeseTea => 3
    case SpecialLattes => 4
    case SeasonalSpecials => 5
  }

  /** The member's name, as `ToString()` gives it. */
  function Name(c: Category): (name: string) {
    match c
    case MilkTea => "MilkTea"
    case MilkTeaClassics => "MilkTeaClassics"
    case FruitTea => "FruitTea"
    case CheeseTea => "CheeseTea"
    case SpecialLattes => "SpecialLattes"
    case SeasonalSpecials => "SeasonalSpecials"
  }

  /** The first category of `cs` whose whole name equals `s` ignoring case. */
  function ParseAmong(s: string, cs: seq<Category>): (r: Option<Category>)
    ensures r.Some? ==> r.value in cs && EqualsIgnoreCase(s, Name(r.value))
    ensures r.None? <==> forall c :: c in cs ==> !EqualsIgnoreCase(s, Name(c))
  {
    if cs == [] then None
    else if EqualsIgnoreCase(s, Name(cs[0])) then Some(cs[0])
    else ParseAmong(s, cs[1..])
  }

  /** `Enum.TryParse<Category>(s, ignoreCase: true, out c)`, restricted to
      whole-name matching: `None` is the `false` return. */
  function Parse(s: string): (c: Option<Category>) {
    ParseAmong(s, AllCategories)
  }

  lemma ExactlySixCategories()
    ensures |AllCategories| == 6
    ensures forall c: Category :: c in AllCategories
    ensures forall i, j :: 0 <= i < j < |AllCategories| ==> AllCategories[i] != AllCategories[j]
  {
    forall c: Category ensures c in AllCategories {
      OrdinalIsDeclarationPosition(c);
    }
  }

  /** Declaration order fixes the ordinals MilkTea = 0 through SeasonalSpecials = 5. */
  lemma OrdinalIsDeclarationPosition(c: Category)
    ensures Ordinal(c) < |AllCategories| && AllCategories[Ordinal(c)] == c
  {
  }

  lemma OrdinalInjective(c1: Category, c2: Category)
    ensures Ordinal(c1) == Ordinal(c2) ==> c1 == c2
  {
  }

  /** No two names are equal even when compared without regard to case, so
      the case-insensitive parser can never be ambiguous. */
  lemma NamesDistinctIgnoringCase(c1: Category, c2: Category)
    ensures EqualsIgnoreCase(Name(c1), Name(c2)) ==> c1 == c2
  {
    NameLengthsDistinct(c1, c2);
  }

  /** The six names even have six different lengths. */
  lemma NameLengthsDistinct(c1: Category, c2: Category)
    ensures |Name(c1)| == |Name(c2)| ==> c1 == c2
  {
  }

  /** Any casing of a category's name parses to that category. */
  lemma ParseAnyCasing(s: string, c: Category)
    requires EqualsIgnoreCase(s, Name(c))
    ensures Parse(s) == Some(c)
  {
    assert c in AllCategories;
    var r := Parse(s);
    assert r.Some?;
    NameLengthsDistinct(r.value, c);
  }

  /** A successful parse found a category whose name matches ignoring case;
      a failed one means no category's name matches. */
  lemma ParseSound(s: string)
    ensures Parse(s).Some? ==> EqualsIgnoreCase(s, Name(Parse(s).value))
    ensures Parse(s).None? <==> forall c: Category :: !EqualsIgnoreCase(s, Name(c))
  {
    ExactlySixCategories();
  }

  /** The parser inverts the name. */
  lemma ParseName(c: Category)
    ensures Parse(Name(c)) == Some(c)
  {
    ParseAnyCasing(Name(c), c);
  }

  /** Matching is on whole names: "MilkTea", a prefix of "MilkTeaClassics",
      parses to MilkTea, in any casing. */
  lemma ParseMilkTeaIsWholeName()
    ensures Parse("MilkTea") == Some(MilkTea)
    ensures Parse("milktea") == Some(MilkTea)
  {
    ParseName(MilkTea);
    assert EqualsIgnoreCase("milktea", Name(MilkTea));
    ParseAnyCasing("milktea", MilkTea);
  }

  /** The longer name in capitals parses to its own category. */
  lemma ParseMilkTeaClassicsUpperCase()
    ensures Parse("MILKTEACLASSICS") == Some(MilkTeaClassics)
  {
    assert EqualsIgnoreCase("MILKTEACLASSICS", Name(MilkTeaClassics));
    ParseAnyCasing("MILKTEACLASSICS", MilkTeaClassics);
  }

  /** A string whose length is no category name's length parses to nothing:
      the bare prefix "Milk" and "not-a-category" among them. */
  lemma ParseRejectsOtherLengths(s: string)
    requires forall c: Category :: |Name(c)| != |s|
    ensures Parse(s) == None
  {
    ParseSound(s);
  }

  lemma ParseRejectsExamples()
    ensures Parse("Milk") == None
    ensures Parse("not-a-category") == None
  {
    ParseRejectsOtherLengths("Milk");
    ParseRejectsOtherLengths("not-a-category");
  }
}
