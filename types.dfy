// The records of types/index.ts: recipes with their ingredients and steps,
// the two UI languages and the two themes.

module RecipeTypes {

  datatype Option<+T> = None | Some(value: T)

  /** The three difficulty levels; `Name` is the string the app stores and compares. */
  datatype Difficulty = Easy | Medium | Hard {
    function Name(): string {
      match this
      case Easy => "Easy"
      case Medium => "Medium"
      case Hard => "Hard"
    }
  }

  /** The six recipe categories; `Name` is the string the app stores and compares. */
  datatype Category = Vegetarian | Meat | Fasting | Breakfast | Snack | Drink {
    function Name(): string {
      match this
      case Vegetarian => "vegetarian"
      case Meat => "meat"
      case Fasting => "fasting"
      case Breakfast => "breakfast"
      case Snack => "snack"
      case Drink => "drink"
    }
  }

  datatype Ingredient = Ingredient(
    id: string,
    name: string,
    nameAmharic: string,
    amount: string,
    unit: string)

  /** `timer` is a number of seconds; absent or 0 means the step has no timer. */
  datatype RecipeStep = RecipeStep(
    id: string,
    stepNumber: int,
    instruction: string,
    instructionAmharic: string,
    image: Option<string>,
    timer: Option<int>)

  /** A recipe record. Only `id`, the searchable texts, `category`, `region`
      and `difficulty` take part in the catalog's logic; the other fields
      are carried along unchanged. */
  datatype Recipe = Recipe(
    id: string,
    title: string,
    titleAmharic: string,
    description: string,
    descriptionAmharic: string,
    image: Option<string>,
    cookTime: int,
    servings: int,
    difficulty: Difficulty,
    category: Category,
    isFavorite: bool,
    isTraditional: bool,
    region: string,
    ingredients: seq<Ingredient>,
    steps: seq<RecipeStep>,
    tips: Option<string>,
    tipsAmharic: Option<string>)

  /** Some recipe of `recipes` carries `id`: the `some(recipe => recipe.id === id)`
      test that `isCustomRecipe` applies to the custom recipes. */
  predicate HasId(recipes: seq<Recipe>, id: string): (r: bool)
    ensures r <==> exists i :: 0 <= i < |recipes| && recipes[i].id == id
  {
    exists r :: r in recipes && r.id == id
  }

  /** The two UI languages, stored as 'en' and 'am'. */
  datatype Language = En | Am

  /** The two themes, stored as 'light' and 'dark'. */
  datatype Theme = Light | Dark
}
