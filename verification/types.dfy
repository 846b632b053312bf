/** The records the picker passes around (src/types/index.ts). */
module ColorTypes {
  import opened Wrappers

  /** A sampled colour as shown to the user; `name` and `timestamp` are optional. */
  datatype ColorInfo = ColorInfo(hex: string, rgb: string, name: Option<string>, timestamp: Option<int>)

  /** A colour in the saved collection: a ColorInfo with an id and a mandatory timestamp. */
  datatype SavedColor = SavedColor(hex: string, rgb: string, name: Option<string>, id: string, timestamp: int)
}
