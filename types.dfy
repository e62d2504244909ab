/** The shared data model: award categories, score sets, merged beers and
    comments (the records of `src/types.ts` and the comment record of the
    comment generator). */
module Types {
  import opened Wrappers

  /** The five fixed award categories. */
  datatype Category = Label | Color | Drinkability | Flavor | Overall

  const AllCategories: seq<Category> := [Label, Color, Drinkability, Flavor, Overall]

  /** The tag text of a category, as it appears in the winners table. */
  function CategoryTag(c: Category): string {
    match c
    case Label => "Label"
    case Color => "Color"
    case Drinkability => "Drinkability"
    case Flavor => "Flavor"
    case Overall => "Overall"
  }

  /** Reads a category tag; anything but the five exact tags is `None`. */
  function ParseCategory(s: string): (r: Option<Category>)
    ensures r.Some? ==> CategoryTag(r.value) == s
    ensures (exists c :: CategoryTag(c) == s) ==> r.Some?
  {
    if s == "Label" then Some(Label)
    else if s == "Color" then Some(Color)
    else if s == "Drinkability" then Some(Drinkability)
    else if s == "Flavor" then Some(Flavor)
    else if s == "Overall" then Some(Overall)
    else None
  }

  /** The seven numeric fields of a score set (`keyof BeerScores`). */
  datatype ScoreField =
    | DrinkabilityScore | FlavorScore | ColorScore | LabelScore | OverallScore
    | VotesCount | TotalScore

  /** `labelScore` is the `label` field (`label` is a Dafny keyword). */
  datatype Scores = Scores(
    drinkability: real, flavor: real, color: real, labelScore: real, overall: real,
    votes: real, total: real)

  function Score(s: Scores, f: ScoreField): real {
    match f
    case DrinkabilityScore => s.drinkability
    case FlavorScore => s.flavor
    case ColorScore => s.color
    case LabelScore => s.labelScore
    case OverallScore => s.overall
    case VotesCount => s.votes
    case TotalScore => s.total
  }

  /** A merged contest entry. The optional fields are `undefined` when the
      entry has no registrant row or the registrant table lacks the column;
      `name` is `undefined` only when neither table supplies one. */
  datatype Beer = Beer(
    entryId: string,
    name: Option<string>,
    brewer: Option<string>,
    style: Option<string>,
    abv: Option<real>,
    img: Option<string>,
    scores: Scores)

  /** A comment shown in a bubble. */
  datatype Comment = Comment(id: string, text: string, author: Option<string>)

  /** JavaScript truthiness of a string that may be `undefined`. */
  predicate Truthy(s: Option<string>) {
    s.Some? && s.value != ""
  }

  /** The text a template literal produces for a string that may be
      `undefined`. */
  function TemplateText(s: Option<string>): string {
    match s
    case Some(v) => v
    case None => "undefined"
  }
}
