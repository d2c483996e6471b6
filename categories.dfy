/** The dock categories and the titles shown under "Online Inspirations" (src/constants/categories.js). */
module Categories {

  const BackgroundEffect := "Background effect"
  const TextEffect := "Text effect"
  const ButtonInteractions := "Button interactions"
  const All := "all"

  /** Dock order: Background, Text, Button, Online Inspirations. */
  const DefaultCategories: seq<string> := [BackgroundEffect, TextEffect, ButtonInteractions, All]

  /** Category shown when the URL names none (or an unknown one) on the list page. */
  const DefaultCategory := BackgroundEffect

  const OnlineInspirationTitles: seq<string> := ["Avatar Group", "Cursor"]

  lemma DefaultCategoriesDistinct()
    ensures forall i, j :: 0 <= i < j < |DefaultCategories| ==> DefaultCategories[i] != DefaultCategories[j]
  {
  }
}
