# Recipe book core, modelled in Dafny

A model of the logic behind a small React/Redux recipe book, with proofs about it:

- **Recipe store** (`recipe_slice.dfy`). The store state holds:
  - the ordered list of recipes;
  - the category filter;
  - the search term.

  Its six reducers are `addRecipe`, `updateRecipe`, `deleteRecipe`, `toggleFavorite`, `setFilter` and `setSearchTerm`. They become the methods of the class `RecipeStore`, which update its fields in place. Each reducer that writes the list to local storage also sets the ghost field `persisted`, the list as last written there. The functions `Updated`, `Toggled` and `WithoutId` state what each reducer does to the list, and lemmas about those functions give:
  - the no-op cases;
  - first-match-only behaviour;
  - idempotence and involution;
  - preservation of distinct ids.
- **Filtered view** (`selectors.dfy`). `selectFilteredRecipes` first filters by exact category, a step skipped for `'all'`. It then does a case-insensitive substring search over the name and the ingredients, a step skipped for an empty term. The model proves that the view is sound and complete, preserves order and ignores the case of the term, and that its two steps commute.
- **Sorting and the shopping list** (`sorting.dfy`, `app.dfy`). The comparator sort by name, category or favorite flag is modelled over a stable sort, as ECMA-262 (10th edition, section 22.1.3.27) requires of `Array.prototype.sort`. The model proves that the result is:
  - a permutation of the input;
  - ordered by the comparator;
  - stable;
  - favorites first, which for the favorite key makes it exactly a stable partition.

  The shopping list is `Array.from(new Set([...prev, ...ingredients]))`: a duplicate-free union, ordered by first occurrence. A small class `ShoppingList` holds that piece of application state.
- **Recipe form** (`recipe_form.dfy`). `handleSubmit` becomes a function returning an optional `Add`/`Update` command. It covers:
  - the required-field guard;
  - trimming;
  - the `split(',')` / `trim` / `filter(Boolean)` ingredient parse;
  - `parseInt` for the optional numbers.

  The edit prefill joins ingredients with `", "`. The model proves that a clean recipe, prefilled and submitted unchanged, dispatches an update carrying exactly that recipe.
- **Supporting modules.** The JavaScript string and number operations the code relies on are written out in `text.dfy` and `numbers.dfy`:
  - `trim` uses the ECMAScript whitespace set;
  - `split(',')`, `join`, ASCII `toLowerCase` and `includes`;
  - `parseInt` covers leading whitespace, sign, `0x` and the digit prefix, and yields NaN otherwise;
  - `toString` of an integer.

  `seqs.dfy` holds the generic filter, map, subsequence and first-occurrence dedup helpers.

Source paths below are relative to the repository root.

## Model

| member | source | states |
|---|---|---|
| Types.WithId | React-Assignment-3/src/store/recipeSlice.ts:24-27 | the new recipe carries the given id and otherwise exactly the payload's fields |
| RecipeSlice.FindIndex | React-Assignment-3/src/store/recipeSlice.ts:32-34 | `findIndex`/`find`: the index found holds the id and no earlier recipe does; `None` exactly when no recipe has the id |
| RecipeSlice.Updated | React-Assignment-3/src/store/recipeSlice.ts:31-39 | updating keeps the length and every id; each position is either unchanged or the payload |
| RecipeSlice.UpdatedPresent | React-Assignment-3/src/store/recipeSlice.ts:32-36 | with a present id, exactly the first recipe carrying it is replaced |
| RecipeSlice.UpdatedAbsent | React-Assignment-3/src/store/recipeSlice.ts:35 | with an absent id the list is unchanged |
| RecipeSlice.UpdatedKeepsUniqueIds | React-Assignment-3/src/store/recipeSlice.ts:31-39 | updating keeps ids pairwise distinct |
| RecipeSlice.Toggled | React-Assignment-3/src/store/recipeSlice.ts:46-54 | toggling keeps length and ids, changes a position only by flipping `isFavorite` on a recipe with the id, and changes the list exactly when the id is present |
| RecipeSlice.ToggledPresent | React-Assignment-3/src/store/recipeSlice.ts:47-51 | only the first recipe with the id is flipped |
| RecipeSlice.ToggledTwice | React-Assignment-3/src/store/recipeSlice.ts:46-54 | toggling the same id twice restores the list |
| RecipeSlice.WithoutId | React-Assignment-3/src/store/recipeSlice.ts:40-43 | the recipes kept are exactly those of the list whose id differs, each as many times as the list holds it |
| Seqs.FilterCounts | React-Assignment-3/src/store/recipeSlice.ts:41-43 | `filter` keeps every copy of each element it accepts and no copy of the others |
| RecipeSlice.WithoutIdIsSubsequence | React-Assignment-3/src/store/recipeSlice.ts:41-43 | deleting keeps the remaining recipes in their original order |
| RecipeSlice.WithoutIdIdempotent | React-Assignment-3/src/store/recipeSlice.ts:40-45 | deleting twice equals deleting once |
| RecipeSlice.WithoutIdAbsent | React-Assignment-3/src/store/recipeSlice.ts:41-43 | deleting an absent id leaves the list unchanged |
| RecipeSlice.WithoutIdKeepsUniqueIds | React-Assignment-3/src/store/recipeSlice.ts:40-45 | deleting keeps ids pairwise distinct |
| RecipeSlice.AddedKeepsUniqueIds | React-Assignment-3/src/store/recipeSlice.ts:23-28 | appending a recipe with a fresh id keeps ids pairwise distinct |
| RecipeSlice.RepeatedIdBreaksUniqueness | React-Assignment-3/src/store/recipeSlice.ts:26 | two adds that receive the same timestamp id always leave a repeated id |
| RecipeSlice.RecipeStore.constructor | React-Assignment-3/src/store/recipeSlice.ts:4-17 | the initial list is the stored one, or empty when there is none; filter `'all'`, empty search term, snapshot equal to the list |
| RecipeSlice.RecipeStore.AddRecipe | React-Assignment-3/src/store/recipeSlice.ts:23-30 | exactly one recipe, the payload with the new id, is appended; the snapshot is the new list; filter and search term are unchanged; a fresh id keeps ids distinct |
| RecipeSlice.RecipeStore.UpdateRecipe | React-Assignment-3/src/store/recipeSlice.ts:31-39 | the list becomes `Updated`; the snapshot is written only when the id is present; other fields are unchanged; distinct ids stay distinct |
| RecipeSlice.RecipeStore.DeleteRecipe | React-Assignment-3/src/store/recipeSlice.ts:40-45 | the list becomes `WithoutId`; the snapshot is the new list; other fields are unchanged; distinct ids stay distinct |
| RecipeSlice.RecipeStore.ToggleFavorite | React-Assignment-3/src/store/recipeSlice.ts:46-54 | the list becomes `Toggled`; the snapshot is written only when the id is present; other fields are unchanged; distinct ids stay distinct |
| RecipeSlice.RecipeStore.SetFilter | React-Assignment-3/src/store/recipeSlice.ts:55-57 | only the filter changes; list, snapshot and search term are untouched |
| RecipeSlice.RecipeStore.SetSearchTerm | React-Assignment-3/src/store/recipeSlice.ts:58-60 | only the search term changes; list, snapshot and filter are untouched |
| Selectors.ByCategory | React-Assignment-3/src/store/selectors.ts:13-15 | the filter `'all'` keeps the whole list; any other filter keeps every copy of the recipes whose category equals it exactly, and nothing else |
| Selectors.BySearch | React-Assignment-3/src/store/selectors.ts:17-26 | an empty term keeps the whole list; a non-empty one keeps every copy of the recipes whose lower-cased name or some lower-cased ingredient contains the lower-cased term, and nothing else |
| Selectors.SelectFilteredRecipes | React-Assignment-3/src/store/selectors.ts:8-30 | the view holds each recipe passing both steps as many times as the store does and no other recipe; order is stated by `SelectIsSubsequence` |
| Selectors.SelectEverything | React-Assignment-3/src/store/selectors.ts:11-28 | filter `'all'` with an empty term gives the input list |
| Selectors.SelectMembership | React-Assignment-3/src/store/selectors.ts:13-26 | soundness and completeness: a recipe is in the view exactly when it is in the list, its category equals a non-`'all'` filter, and for a non-empty term its lower-cased name or some lower-cased ingredient contains the lower-cased term |
| Selectors.SelectIsSubsequence | React-Assignment-3/src/store/selectors.ts:13-26 | the view is a subsequence of the list, so relative order is kept |
| Selectors.SelectIgnoresTermCase | React-Assignment-3/src/store/selectors.ts:18-24 | a term and its lower-cased form give the same view |
| Selectors.SelectStepsCommute | React-Assignment-3/src/store/selectors.ts:13-26 | search then category filter gives the same view as category then search |
| Selectors.SelectUnknownFilterIsEmpty | React-Assignment-3/src/store/selectors.ts:13-15 | a filter that is neither `'all'` nor an offered category shows nothing when every stored category is an offered one |
| Selectors.AbsentLetterNotFound | React-Assignment-3/src/store/selectors.ts:21-23 | a term whose first letter does not occur in a string, in either case, is not found in it |
| Selectors.AbsentLetterHides | React-Assignment-3/src/store/selectors.ts:17-26 | a recipe whose name and ingredients lack the term's first letter, in either case, is not in the view |
| Selectors.SearchExampleHit | React-Assignment-3/src/store/selectors.ts:17-26 | a recipe "Pancakes" with ingredients flour and milk is found by the term "milk" |
| Text.TrimStart | React-Assignment-3/src/components/RecipeForm.tsx:51-53 | the leading part removed is all whitespace and what is left is a suffix that does not start with whitespace |
| Text.TrimEnd | React-Assignment-3/src/components/RecipeForm.tsx:51-53 | the trailing part removed is all whitespace and what is left is a prefix that does not end with whitespace |
| Text.Trim | React-Assignment-3/src/components/RecipeForm.tsx:51-53 | `trim` leaves no whitespace at either end and never lengthens the text; `TrimPadded` shows it removes exactly the surrounding whitespace |
| Text.TrimIdempotent | React-Assignment-3/src/components/RecipeForm.tsx:60 | trimming twice equals trimming once |
| Text.BlankIffAllWhitespace | React-Assignment-3/src/components/RecipeForm.tsx:51-53 | `!s.trim()` holds exactly when every character of `s` is whitespace |
| Text.Split | React-Assignment-3/src/components/RecipeForm.tsx:62 | `split(',')` yields at least one piece and no piece contains a comma |
| Text.Join | React-Assignment-3/src/components/RecipeForm.tsx:27 | `join` of no pieces is empty, of one piece is that piece, and otherwise starts with the first piece; `SplitJoin` and `ParseJoined` are its inverses |
| Text.JoinSplit | React-Assignment-3/src/components/RecipeForm.tsx:62 | joining the pieces of `split(',')` with `','` gives the text back |
| Text.SplitAppend | React-Assignment-3/src/components/RecipeForm.tsx:62 | splitting around a comma is splitting each side |
| Text.SplitJoin | React-Assignment-3/src/components/RecipeForm.tsx:27 | comma-free pieces joined with `','` split back to themselves |
| Text.ToLower | React-Assignment-3/src/store/selectors.ts:18 | lower-casing keeps the length, maps each character and leaves no upper-case ASCII letter |
| Text.ToLowerIdempotent | React-Assignment-3/src/store/selectors.ts:18-24 | lower-casing twice equals lower-casing once |
| Text.Contains | React-Assignment-3/src/store/selectors.ts:21-23 | `includes`: the empty string is always found, and a longer string never is |
| Text.ContainsIff | React-Assignment-3/src/store/selectors.ts:21-23 | `includes` holds exactly when the term occurs at some position |
| Text.ContainsKeepsChars | React-Assignment-3/src/store/selectors.ts:21-23 | every character of a found term occurs in the searched string |
| Numbers.ParseInt | React-Assignment-3/src/components/RecipeForm.tsx:69-70 | `parseInt` yields NaN on text that is empty after leading whitespace |
| Numbers.ParseUnsigned | React-Assignment-3/src/components/RecipeForm.tsx:69-70 | the unsigned part of `parseInt` is never negative, and text starting with a digit 1-9 always gives a number |
| Numbers.ParseUnsignedDecimal | React-Assignment-3/src/components/RecipeForm.tsx:69-70 | a decimal numeral, leading zeros included, reads as the value of its digits |
| Numbers.ParseIntUnsigned | React-Assignment-3/src/components/RecipeForm.tsx:69-70 | text starting with a digit is read as an unsigned numeral |
| Numbers.ParseIntNegative | React-Assignment-3/src/components/RecipeForm.tsx:69-70 | a minus sign followed by a numeral reads as the numeral's value negated |
| Numbers.NatToString | React-Assignment-3/src/components/RecipeForm.tsx:32-33 | `toString` of a non-negative integer is a decimal numeral without leading zeros denoting it |
| Numbers.ToString | React-Assignment-3/src/components/RecipeForm.tsx:32-33 | `toString` gives "NaN" for NaN, and for an integer a numeral of digits that starts with a minus sign exactly when the number is negative |
| Numbers.ParseIntToString | React-Assignment-3/src/components/RecipeForm.tsx:32-33 | `parseInt` of a number's `toString` gives the number back, NaN included |
| Sorting.Sort | React-Assignment-3/src/App.tsx:53 | the sorted copy has the input's elements, each as often |
| App.Compare | React-Assignment-3/src/App.tsx:54-56 | by name or category two recipes tie exactly when that field is equal; by favorite the result is negative exactly when only the first is a favorite and positive exactly when only the second is |
| App.SortRecipes | React-Assignment-3/src/App.tsx:53-58 | `[...filteredRecipes].sort(...)` returns a new list with the same recipes, each as often; `SortRecipesOrdered` and `SortRecipesStable` give its order |
| Sorting.SortSorted | React-Assignment-3/src/App.tsx:53-58 | with a comparator that is a total preorder, adjacent results are in comparator order |
| Sorting.SortStable | React-Assignment-3/src/App.tsx:53-58 | elements the comparator ranks equal keep their input order |
| Sorting.SortAllTiesIdentity | React-Assignment-3/src/App.tsx:57 | a comparator that ranks everything equal leaves the order unchanged |
| App.LocaleCompare | React-Assignment-3/src/App.tsx:54-55 | the result is -1, 0 or 1, and 0 exactly for equal strings |
| App.LocaleCompareAntisymmetric | React-Assignment-3/src/App.tsx:54-55 | swapping the arguments negates the comparison |
| App.LocaleCompareTransitive | React-Assignment-3/src/App.tsx:54-55 | "not after" is transitive |
| App.ComparatorConsistent | React-Assignment-3/src/App.tsx:53-58 | each of the three comparators is a total preorder |
| App.SortRecipesOrdered | React-Assignment-3/src/App.tsx:53-56 | the sorted recipes are a permutation of the filtered ones, with adjacent recipes non-decreasing by name, category or favorite flag |
| App.SortRecipesStable | React-Assignment-3/src/App.tsx:53-58 | recipes of equal rank keep their order from the filtered list |
| App.FavoriteOrderAhead | React-Assignment-3/src/App.tsx:56 | a list in favorite-comparator order never has a favorite right after a non-favorite |
| App.FavoriteSortPartitions | React-Assignment-3/src/App.tsx:53-56 | sorting by favorite gives the favorites in input order followed by the non-favorites in input order |
| App.FavoritesFirst | React-Assignment-3/src/App.tsx:56 | after sorting by favorite, every favorite precedes every non-favorite |
| App.FavoriteSortExample | React-Assignment-3/src/App.tsx:53-56 | `[A, B*, C, D*]` (starred are favorites) sorts by favorite to `[B, D, A, C]` |
| Seqs.Dedup | React-Assignment-3/src/App.tsx:62 | `Array.from(new Set(xs))` has no duplicates and holds exactly the elements of `xs`; `DedupFirstOccurrence` gives its order |
| Seqs.DedupFirstOccurrence | React-Assignment-3/src/App.tsx:62 | `Array.from(new Set(xs))` lists the elements of `xs` in the order of their first occurrence |
| App.AddIngredients | React-Assignment-3/src/App.tsx:62 | the union has no duplicates, holds exactly the items of the old list and the added ingredients, and lists them in the order of their first occurrence in the old list followed by the ingredients |
| App.AddIngredientsExtends | React-Assignment-3/src/App.tsx:62 | a duplicate-free old list is a prefix of the new one |
| App.AddIngredientsIdempotent | React-Assignment-3/src/App.tsx:61-62 | adding the same ingredients twice equals adding them once |
| App.ShoppingListExample | React-Assignment-3/src/App.tsx:62 | adding `[egg, flour]` and then `[egg, milk]` gives `[egg, flour, milk]` |
| App.ShoppingList.constructor | React-Assignment-3/src/App.tsx:42-43 | the shopping list starts empty and hidden |
| App.ShoppingList.HandleAddToShoppingList | React-Assignment-3/src/App.tsx:61-64 | the list becomes the deduplicated union and is shown; a duplicate-free old list stays its prefix |
| RecipeForm.NumberText | React-Assignment-3/src/components/RecipeForm.tsx:32-33 | the prefilled number text is empty exactly when the number is absent |
| RecipeForm.Prefill | React-Assignment-3/src/components/RecipeForm.tsx:25-34 | the filled form's number texts are empty exactly when the recipe has no number, its ingredients text starts with the first ingredient, and category and favorite are copied; `PrefillDraft` shows submitting it gives the recipe's fields back |
| RecipeForm.FormOnChange | React-Assignment-3/src/components/RecipeForm.tsx:23-47 | with a recipe the form is filled from it; opening for a new recipe (`EmptyForm`) clears every text field, unsets favorite and resets the category to "Main Course", one of the offered categories; otherwise the form is unchanged |
| RecipeForm.ParseIngredients | React-Assignment-3/src/components/RecipeForm.tsx:61-64 | every parsed ingredient is non-empty, trimmed and comma-free |
| RecipeForm.ParseIngredientsAppend | React-Assignment-3/src/components/RecipeForm.tsx:61-64 | the parse of text around a comma is the parse of each side in order, so input order is kept |
| RecipeForm.ParseSeparatorsOnly | React-Assignment-3/src/components/RecipeForm.tsx:61-64 | text made only of commas and whitespace parses to no ingredient |
| RecipeForm.OptionalNumber | React-Assignment-3/src/components/RecipeForm.tsx:69-70 | a number is absent exactly when its text is empty |
| RecipeForm.FormDraft | React-Assignment-3/src/components/RecipeForm.tsx:59-71 | `recipeData`: name, instructions and image URL come out trimmed, with name or instructions empty exactly when the form's text is all whitespace; ingredients are clean; numbers are absent exactly for empty text; category and favorite are copied; `Submit` ties each value to the form text (trimmed text, `ParseIngredients`, `OptionalNumber`) |
| RecipeForm.Submit | React-Assignment-3/src/components/RecipeForm.tsx:49-80 | nothing is dispatched exactly when name, ingredients or instructions is blank after trimming; otherwise an update exactly when editing, carrying the edited recipe's id, and an add otherwise. The dispatched name, instructions and image URL are the form's text trimmed (so name and instructions are non-empty), the ingredients are the form's text split on commas, trimmed and with empty pieces dropped, each clean; prep time and servings are the `parseInt` of their text, absent exactly for empty text; category and favorite are copied |
| RecipeForm.SubmitEmptyFormRejected | React-Assignment-3/src/components/RecipeForm.tsx:35-57 | opening the form for a new recipe and submitting at once dispatches nothing |
| RecipeForm.CommasOnlyGiveNoIngredients | React-Assignment-3/src/components/RecipeForm.tsx:52-64 | ingredient text made of commas and whitespace, with a comma, passes the guard and dispatches a recipe with no ingredients |
| RecipeForm.ParseJoined | React-Assignment-3/src/components/RecipeForm.tsx:27-64 | clean ingredients joined with `", "` parse back to the same list |
| RecipeForm.NumberTextRoundTrip | React-Assignment-3/src/components/RecipeForm.tsx:32-70 | a number's prefilled text parses back to it, and no number stays no number |
| RecipeForm.PrefillDraft | React-Assignment-3/src/components/RecipeForm.tsx:23-71 | the form filled from a clean recipe turns back into that recipe's fields |
| RecipeForm.PrefillNotBlank | React-Assignment-3/src/components/RecipeForm.tsx:25-57 | the form filled from a clean recipe with an ingredient passes the guard |
| RecipeForm.SubmitPrefilled | React-Assignment-3/src/components/RecipeForm.tsx:23-77 | editing a clean recipe and saving it unchanged dispatches an update carrying exactly that recipe |

## Left out

- Local storage and JSON are not modelled. The ghost field `persisted` is the list as last written. The constructor takes the loaded list as a parameter, `None` when the key is missing or the JSON does not parse.
- RecipeSlice.RecipeStore.constructor: reading the snapshot back is not exactly the list written. `JSON.stringify` writes a NaN `prepTime` or `servings` (for instance from `parseInt(".5")`) as `null`, so after a reload that number is `null` rather than NaN. The model keeps NaN.
- `Date.now()` is a clock. The new id is a parameter of `AddRecipe`.
- App.LocaleCompare: `localeCompare` is locale-dependent. It is taken as lexicographic order on Unicode code points; only the sign of the result is used.
- Strings are sequences of code points, while JavaScript strings are UTF-16 code units. The two agree below U+10000. Above that, a character is one element here but a surrogate pair in JavaScript. So lengths differ, and a character from U+10000 up sorts after U+E000-U+FFFF here, where UTF-16 code-unit order puts it before them. Lone surrogates are not modelled.
- Text.ToLower: only the ASCII letters A-Z are lower-cased. Unicode case mapping is left out.
- Numbers.ParseInt: only integers are modelled. Precision loss above 2^53 is not modelled.
- Numbers.NatToString: the exponent form that `toString` uses for very large numbers is not modelled. The round trip is stated for exact integers.
- Redux Toolkit plumbing is framework code and is not modelled: `createSlice`, Immer drafts, action objects, `dispatch`, and the memoisation of `createSelector`. The reducers are methods, and the selector is a function of the three state fields.
- React hooks and rendering are not modelled. `useState`, `useCallback`, `useSelector`, the JSX and all presentational components are out. So is `updateField` (RecipeForm.tsx:82-87), a plain setter of one form field: the form state is a `FormData` value.
- The theme toggle, `handleEdit`, `handleCloseForm` and `showForm` are UI state. They are left out.
- `handleShareRecipe` (App.tsx:67-71) is left out. It is clipboard, `alert` and `window.location` I/O.
- `handleSubmit`'s `alert` and its final `onClose()` are left out. The alert path is the `None` result, and the dispatched action is the `Some` command.
- The comparator's fallback `return 0` (App.tsx:57) cannot occur, since `sortBy` is typed as one of the three keys. `SortAllTiesIdentity` states what a constant-zero comparator would do.
- `category` and `filter` are plain strings, as in the source. `Categories` is used only to state `SelectUnknownFilterIsEmpty` and that the form's default category "Main Course" is one of them (`FormOnChange`).
