/**
 The records of the recipe book: a `Recipe`, the payload of `addRecipe`
 (a recipe without its id), and the category names the form offers.
 `category` and the store's `filter` are plain strings, as in the source:
 nothing checks them against `Categories`.
 */
module Types {
  import opened Numbers

  datatype Option<T> = None | Some(value: T)

  datatype Recipe = Recipe(
    id: string,
    name: string,
    ingredients: seq<string>,
    instructions: string,
    imageUrl: string,
    category: string,
    isFavorite: bool,
    prepTime: Option<Num>,
    servings: Option<Num>)

  /** `Omit<Recipe, 'id'>`: what `addRecipe` receives. */
  datatype Draft = Draft(
    name: string,
    ingredients: seq<string>,
    instructions: string,
    imageUrl: string,
    category: string,
    isFavorite: bool,
    prepTime: Option<Num>,
    servings: Option<Num>)

  /** `{ ...draft, id }`. */
  function WithId(d: Draft, id: string): (r: Recipe)
    ensures r.id == id && DraftOf(r) == d
  {
    Recipe(id, d.name, d.ingredients, d.instructions, d.imageUrl, d.category,
           d.isFavorite, d.prepTime, d.servings)
  }

  /** Every field of `r` but its id. */
  function DraftOf(r: Recipe): Draft {
    Draft(r.name, r.ingredients, r.instructions, r.imageUrl, r.category,
          r.isFavorite, r.prepTime, r.servings)
  }

  /** Taking a recipe apart into its id and the rest, and back, gives the recipe. */
  lemma DraftOfWithId(r: Recipe)
    ensures WithId(DraftOf(r), r.id) == r
  {
  }

  /** The category names the form offers. */
  const Categories: seq<string> := ["Dessert", "Main Course", "Snack", "Appetizer", "Beverage"]

  /** The filter value that selects every category. */
  const FilterAll: string := "all"
}
