/** The catalog entry of Item.kt: an immutable record with no behaviour of its own. */
module Items {

  /** An image resource handle. The integer the Android build assigns to `R.drawable.<name>`
      is not known to the model, so the handle is identified by its resource name. */
  datatype Drawable = Drawable(resourceName: string)

  /** `data class Item(id, name, description, imageResId)`; equality is structural, as for a
      Kotlin data class. */
  datatype Item = Item(id: int, name: string, description: string, imageResId: Drawable)
}
