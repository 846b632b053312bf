# Colour picker core, modelled in Dafny

This project models the sequential core of a browser colour picker in Dafny. It has three parts:

- **Colour derivation** (`src/utils/colorUtils.ts`). These are pure functions over 8-bit channel triples and hex strings:
  - `rgbToHex` packs the channels into `#rrggbb`.
  - `hexToRgb` parses an optional `#` and six hex digits, after trimming.
  - `formatRgb` renders `rgb(r, g, b)`.
  - `getContrastYIQ` picks black or white text from broadcast luma.
  - `getColorName` is an ordered, first-match-wins threshold classifier.
- **Saved-colour store** (`src/context/ColorContext.tsx`). This is a class holding the current colour, the saved collection (newest first) and the part of local storage the collection is mirrored to.
- **Theme preference** (`src/context/ThemeContext.tsx`). This is a class holding the light/dark theme and its stored copy.

Files:

- `wrappers.dfy`: `Option`.
- `types.dfy`: the `ColorInfo` and `SavedColor` records.
- `bits.dfy`: JavaScript `<<` and `|` on the non-negative values the packing uses.
- `radix.dfy`: `Number.prototype.toString(16)`, decimal interpolation and `parseInt` of hex digits.
- `color_utils.dfy`: the colour helpers and their properties.
- `color_context.dfy`: the saved-colour store.
- `theme_context.dfy`: the theme store.

How the model follows the code:

- `rgbToHex` is modelled as the code computes it. It builds the bit-or `(1 << 24) | (r << 16) | (g << 8) | b`, renders it in base 16, and slices off the leading guard digit. The contract proves that this equals `#` followed by two zero-padded lower-case digits per channel.
- `hexToRgb` matches the regular expression `/^#?([a-f\d]{2})([a-f\d]{2})([a-f\d]{2})$/i` against the string after JavaScript's `trim`. The model lists trim's whitespace set in full.
- `getContrastYIQ` divides by 1000 as a real number, as the code does. Its contract restates the decision as the exact integer test `299r + 587g + 114b >= 128000`.
- `getColorName` is modelled twice. One version is the source's if-chain. The other is an independent ordered rule table searched front to back. A lemma proves the two agree on every triple.
- The Yellow rule (`colorUtils.ts:47`) can never fire, because every triple it accepts is already accepted by the Orange rule on line 46. This is proved, and the model keeps the behaviour as written.
- Each store mutation writes the new list to storage under `savedColors`, and `clearSavedColors` removes the key. The predicate `Mirrored()` states that reloading storage gives back the in-memory list. It holds after the constructor and after every mutation.
- The theme store writes the theme to `color-picker-theme` on mount and on every toggle. `Persisted()` holds throughout.

## Model

| member | source | states |
|---|---|---|
| `Bits.BitOrDisjoint` | src/utils/colorUtils.ts:4 | or-ing a multiple of 2^k with a number below 2^k is addition (the channels occupy disjoint bits) |
| `Bits.ShiftLeft` | src/utils/colorUtils.ts:4 | `x << k` as x·2^k on the non-negative values below 2^31 the packing shifts; no contract of its own, its closed form is stated through `ColorUtils.Pack` |
| `Bits.BitOr` | src/utils/colorUtils.ts:4 | `a \| b` one binary digit at a time; no contract of its own, `Bits.BitOrBounds` and `Bits.BitOrDisjoint` state what it computes |
| `Bits.BitOrBounds` | src/utils/colorUtils.ts:4 | or-ing only sets bits: `a \| b` is at least each operand and at most their sum |
| `ColorUtils.Pack` | src/utils/colorUtils.ts:4 | `(1 << 24) \| (r << 16) \| (g << 8) \| b` equals 2^24 + 65536 r + 256 g + b |
| `Radix.ToHexString` | src/utils/colorUtils.ts:4 | `toString(16)` yields at least one character, each a hex digit |
| `Radix.ToHexStringLeadingOne` | src/utils/colorUtils.ts:4 | `toString(16)` of 16^k + low (low < 16^k) is "1" followed by the k zero-padded digits of low |
| `Radix.PaddedHexSplit` | src/utils/colorUtils.ts:4 | the padded hex digits of hi·16^k + low (low < 16^k) are those of hi followed by the k digits of low |
| `Radix.Shift16IsProduct` | src/utils/colorUtils.ts:4 | moving a number up by k hex digits is multiplying it by 16^k |
| `ColorUtils.PackedHexDigits` | src/utils/colorUtils.ts:4 | the packed number prints as 7 digits: the guard '1' and then the bytes r, g, b |
| `ColorUtils.RgbToHex` | src/utils/colorUtils.ts:3-5 | `rgbToHex` returns 7 characters: '#' followed by r, g, b as two zero-padded lower-case hex digits each |
| `ColorUtils.RedHex` | src/utils/colorUtils.ts:3-5 | `rgbToHex(255, 0, 0)` is "#ff0000" |
| `ColorUtils.WhiteHex` | src/utils/colorUtils.ts:3-5 | `rgbToHex(255, 255, 255)` is "#ffffff" |
| `Radix.HexDigitReadsBack` | src/utils/colorUtils.ts:4 | each digit value prints as a lower-case hex character that reads back as that value |
| `ColorUtils.TrimStart` | src/utils/colorUtils.ts:9 | leading trim: the result is a suffix, everything dropped is whitespace, and the result does not start with whitespace |
| `ColorUtils.TrimEnd` | src/utils/colorUtils.ts:9 | trailing trim: the result is a prefix, everything dropped is whitespace, and the result does not end with whitespace |
| `ColorUtils.Trim` | src/utils/colorUtils.ts:9 | `trim` never lengthens its input, and a non-empty result neither starts nor ends with whitespace |
| `ColorUtils.TrimDropsOnlyWhitespace` | src/utils/colorUtils.ts:9 | `trim` keeps one contiguous run of the input, and everything it drops before or after that run is whitespace |
| `ColorUtils.TrimUnpadded` | src/utils/colorUtils.ts:9 | `trim` leaves unchanged a string with no whitespace at either end |
| `ColorUtils.ParseHexPair` | src/utils/colorUtils.ts:12-14 | `parseInt` of two hex digits gives the byte whose two-digit rendering is those digits lower-cased |
| `ColorUtils.HexToRgb` | src/utils/colorUtils.ts:8-17 | `hexToRgb` itself; no contract of its own, what it accepts is `ColorUtils.HexToRgbAccepts` and what it returns is pinned by the round trips `ColorUtils.HexToRgbOfRgbToHex` and `ColorUtils.RgbToHexOfHexToRgb` |
| `ColorUtils.HexToRgbAccepts` | src/utils/colorUtils.ts:8-17 | `hexToRgb` returns non-null exactly when the trimmed input is six hex digits (either case), optionally after '#' |
| `ColorUtils.ParseByteHex` | src/utils/colorUtils.ts:12-14 | the two digits `rgbToHex` writes for a byte are hex digits that `parseInt` reads back as that byte |
| `ColorUtils.HexToRgbOfRgbToHex` | src/utils/colorUtils.ts:3-17 | round trip: for every triple, `hexToRgb(rgbToHex(r, g, b))` is exactly (r, g, b) |
| `ColorUtils.RgbToHexOfHexToRgb` | src/utils/colorUtils.ts:3-17 | reverse round trip: re-encoding any accepted string gives '#' and its six digits lower-cased |
| `ColorUtils.Lowered` | src/utils/colorUtils.ts:9 | lower-casing hex digits keeps the length and lower-cases each character in place |
| `Radix.ToDecimalString` | src/utils/colorUtils.ts:21 | `${n}` is a non-empty run of decimal digits with a leading '0' only for 0 |
| `Radix.DecimalRoundTrip` | src/utils/colorUtils.ts:21 | reading back the decimal rendering of n gives n |
| `Radix.DecimalInjective` | src/utils/colorUtils.ts:21 | distinct numbers interpolate to distinct decimal strings |
| `ColorUtils.FormatRgb` | src/utils/colorUtils.ts:20-22 | `formatRgb` text starts with "rgb(", ends with ')' and has at least 12 characters; its fields are `Radix.ToDecimalString` renderings, and `ColorUtils.FormatRgbInjective` proves distinct triples render differently |
| `ColorUtils.RgbTemplateFields` | src/utils/colorUtils.ts:21 | `rgb(R, G, B)` filled with digit runs splits back into its three fields |
| `ColorUtils.FormatRgbInjective` | src/utils/colorUtils.ts:20-22 | distinct triples never get the same `rgb(r, g, b)` string |
| `ColorUtils.RgbTextExamples` | src/utils/colorUtils.ts:20-22 | `formatRgb(255, 0, 0)` is "rgb(255, 0, 0)" and `formatRgb(255, 255, 255)` is "rgb(255, 255, 255)" |
| `ColorUtils.GetContrastYiq` | src/utils/colorUtils.ts:25-32 | result is 'black' or 'white'; 'black' for unparsable input; otherwise 'black' iff 299r + 587g + 114b >= 128000 |
| `ColorUtils.ContrastExamples` | src/utils/colorUtils.ts:25-32 | "#ff0000" gets white text and "#ffffff" gets black text |
| `ColorUtils.LabelInjective` | src/utils/colorUtils.ts:42-58 | no two name buckets share a label string |
| `ColorUtils.Classify` | src/utils/colorUtils.ts:42-58 | the if-chain always names one of the 14 colour buckets, never 'Unknown' (kept for unparsable input); `ColorUtils.ClassifyIsFirstMatch` relates it to the rule table |
| `ColorUtils.GetColorName` | src/utils/colorUtils.ts:35-59 | 'Unknown' for unparsable input; the result is always one of the 15 labels |
| `ColorUtils.ClassifyIsFirstMatch` | src/utils/colorUtils.ts:42-58 | the if-chain equals a front-to-back search of the 13-rule table, with Gray as fallback |
| `ColorUtils.NoRuleNamedGray` | src/utils/colorUtils.ts:42-58 | the 13-rule table `NameRules` (the tests of lines 42-57 in order) names no rule Gray, so Gray is only the fallback |
| `ColorUtils.FirstMatch` | src/utils/colorUtils.ts:42-58 | a front-to-back search of a rule list; no contract of its own, `ColorUtils.FirstMatchPicksFirst` and `ColorUtils.FirstMatchFallback` state what it returns |
| `ColorUtils.FirstMatchPicksFirst` | src/utils/colorUtils.ts:42-58 | in an ordered rule search, the earliest rule that holds decides the name |
| `ColorUtils.FirstMatchFallback` | src/utils/colorUtils.ts:54-58 | with no rule named Gray, the search yields Gray exactly when no rule holds |
| `ColorUtils.FirstRuleWins` | src/utils/colorUtils.ts:42-58 | first match wins: the label is that of the earliest rule the triple satisfies |
| `ColorUtils.GrayExactlyWhenNoRuleHolds` | src/utils/colorUtils.ts:54-58 | 'Gray' is returned exactly when none of the 13 earlier rules holds |
| `ColorUtils.YellowShadowedByOrange` | src/utils/colorUtils.ts:46-47 | every triple satisfying the Yellow rule satisfies the earlier Orange rule |
| `ColorUtils.ClassifyNeverYellow` | src/utils/colorUtils.ts:42-58 | the classifier never yields Yellow |
| `ColorUtils.YellowNeverReturned` | src/utils/colorUtils.ts:35-59 | `getColorName` never returns 'Yellow', for any string |
| `ColorUtils.EveryOtherNameReachable` | src/utils/colorUtils.ts:42-58 | every bucket other than Yellow (and Unknown) is returned for some triple |
| `ColorUtils.NameOfHex` | src/utils/colorUtils.ts:35-59 | the name of a triple's hex string is the classification of that triple |
| `ColorUtils.ColorNameExamples` | src/utils/colorUtils.ts:35-59 | (255,255,0) is named 'Orange', (100,100,100) 'Gray', (220,220,220) 'White'; "" gets 'Unknown' |
| `ColorUtils.DeriveColorInfo` | src/components/ImagePicker.tsx:84-92 | a sample's ColorInfo has the canonical hex string and the name of the sampled triple itself |
| `ColorContext.WithoutId` | src/context/ColorContext.tsx:46 | the filter never grows the list |
| `ColorContext.WithoutIdMembers` | src/context/ColorContext.tsx:46 | the filter keeps exactly the records whose id differs from the deleted one |
| `ColorContext.LoadSavedColors` | src/context/ColorContext.tsx:20-23 | the list a provider starts from; no contract of its own, `ColorContext.ColorProvider.constructor`, `Mirrored()` and `ColorContext.SaveThenReload` state that it reads back what the store wrote |
| `ColorContext.NewRecord` | src/context/ColorContext.tsx:26-30 | `{ ...color, id, timestamp }`; no contract of its own, `ColorContext.SaveShape` states the record's fields |
| `ColorContext.Prepend` | src/context/ColorContext.tsx:33 | `[newColor, ...prev]`; no contract of its own, `ColorContext.SaveShape`, `ColorContext.SaveNewestFirst` and `ColorContext.SaveKeepsIdsDistinct` state the new list |
| `ColorContext.SaveShape` | src/context/ColorContext.tsx:26-33 | saving prepends one record with the colour's hex/rgb/name and the given id and timestamp; the old records follow unchanged |
| `ColorContext.SaveNewestFirst` | src/context/ColorContext.tsx:26-33 | after saving A then B, B's record comes first and A's second |
| `ColorContext.SaveKeepsIdsDistinct` | src/context/ColorContext.tsx:28-33 | prepending a record with a fresh id keeps ids pairwise distinct and adds exactly that id |
| `ColorContext.WithoutIdAppend` | src/context/ColorContext.tsx:46 | filtering a concatenation filters each part: relative order is kept |
| `ColorContext.WithoutIdSingle` | src/context/ColorContext.tsx:46 | a single record is dropped iff its id matches |
| `ColorContext.WithoutIdAbsent` | src/context/ColorContext.tsx:46 | deleting an id no record has leaves the list unchanged |
| `ColorContext.WithoutIdRemovesId` | src/context/ColorContext.tsx:46 | after deleting, the ids present are the old ones minus the deleted id |
| `ColorContext.WithoutIdIdempotent` | src/context/ColorContext.tsx:46 | deleting twice equals deleting once |
| `ColorContext.WithoutIdKeepsIdsDistinct` | src/context/ColorContext.tsx:46 | deleting keeps ids pairwise distinct |
| `ColorContext.WithoutIdRemovesOne` | src/context/ColorContext.tsx:46 | with distinct ids, deleting a present id removes exactly one record |
| `ColorContext.SaveThenDelete` | src/context/ColorContext.tsx:33-46 | saving with a fresh id and then deleting that id restores the list |
| `ColorContext.ColorProvider.constructor` | src/context/ColorContext.tsx:19-23 | the initial current colour is null; the initial list is the stored list, or empty when the key is absent |
| `ColorContext.ColorProvider.SetCurrentColor` | src/context/ColorContext.tsx:19 | replaces the current colour wholesale; collection and storage unchanged |
| `ColorContext.ColorProvider.SaveColor` | src/context/ColorContext.tsx:25-36 | list becomes [new record] + old; storage['savedColors'] is the new list; current colour unchanged; a fresh id keeps ids distinct |
| `ColorContext.ColorProvider.DeleteColor` | src/context/ColorContext.tsx:44-49 | list becomes the filter; storage['savedColors'] is the new list; the id is gone; current colour unchanged; distinct ids stay distinct |
| `ColorContext.ColorProvider.ClearSavedColors` | src/context/ColorContext.tsx:57-59 | list becomes empty and the 'savedColors' key is removed; current colour unchanged |
| `ColorContext.SaveThenReload` | src/context/ColorContext.tsx:20-34 | a new provider started from the storage a save left behind sees the saved list |
| `ThemeContext.ThemeNames` | src/context/ThemeContext.tsx:4 | a theme is exposed as exactly "light" or "dark" |
| `ThemeContext.InitialTheme` | src/context/ThemeContext.tsx:14-22 | initial theme is dark iff the stored value is exactly "dark"; anything else, or nothing, gives light |
| `ThemeContext.Toggled` | src/context/ThemeContext.tsx:34 | toggling always changes the theme |
| `ThemeContext.ToggleInvolution` | src/context/ThemeContext.tsx:34 | toggling twice restores the theme |
| `ThemeContext.ToggledTimes` | src/context/ThemeContext.tsx:34 | the theme after n toggles; no contract of its own, `ThemeContext.ToggledTimesParity` states it |
| `ThemeContext.ToggledTimesParity` | src/context/ThemeContext.tsx:34 | after n toggles the theme is the original iff n is even |
| `ThemeContext.PersistRoundTrip` | src/context/ThemeContext.tsx:16-18 | a persisted theme name is read back as the same theme |
| `ThemeContext.ThemeProvider.constructor` | src/context/ThemeContext.tsx:14-31 | theme decided from storage, then written back under 'color-picker-theme' |
| `ThemeContext.ThemeProvider.PersistTheme` | src/context/ThemeContext.tsx:24-31 | the effect writes the current theme's name under 'color-picker-theme' and changes nothing else |
| `ThemeContext.ThemeProvider.ToggleTheme` | src/context/ThemeContext.tsx:33-35 | theme flips, and the stored value equals the new theme |
| `ThemeContext.ToggleThenReload` | src/context/ThemeContext.tsx:14-34 | a provider started after a toggle shows the toggled theme |

## Left out

- `getPixelData` (`colorUtils.ts:62-77`) is not modelled. It is a canvas `getImageData` call. Its result enters the model only as an `Rgb` value, with each channel in 0..255.
- Coordinate mapping, letterboxing, the camera hook, file reading and all rendering components are not modelled. They are browser APIs, floating-point layout or presentation.
- `ColorUtils.RgbToHex` and `ColorUtils.FormatRgb`: the model accepts only integer channels in 0..255. The JavaScript code would also accept fractions, negatives and values above 255, but every caller passes the bytes of a pixel read, so those inputs are not modelled.
- `ColorUtils.GetContrastYiq` computes in exact reals, where JavaScript uses doubles. The weighted sum is an exact integer well below 2^53, and no sum below 128000 divides to within rounding of 128. So the decision is the same.
- JavaScript strings are UTF-16 code units, and the model uses Unicode characters. Every character that `trim` and the pattern care about lies in the Basic Multilingual Plane.
- Local storage holds structured values here, not JSON text. So the model leaves out serialisation, a `JSON.parse` failure on corrupted text, and the falsy empty-string case of `saved ? JSON.parse(saved) : []`.
- Storage access is assumed never to fail. In a browser, `localStorage.getItem`, `setItem` and `removeItem` (`ColorContext.tsx:21, 34, 47, 59`; `ThemeContext.tsx:16, 30`) can throw when storage is disabled or its quota is exceeded, and the source catches none of it. The model's storage is a total map whose reads and writes always succeed. So `Mirrored()` and `Persisted()` are promised only under that assumption. For example, if `removeItem` throws in `clearSavedColors`, the list is already emptied but the key stays. The failure depends on the browser, and the source has no handling path to model.
- The two providers share one `localStorage` in the browser. They touch disjoint keys, so each class holds its own map.
- uuid generation and `Date.now()` are method parameters of `SaveColor`. The source never checks that an id is fresh, so `ColorContext.ColorProvider.SaveColor` only promises distinct ids when the id it is given is fresh.
- Toast notifications, the DOM class update in the theme effect (`ThemeContext.tsx:26-28`), and the `useColor`/`useTheme` outside-provider guards are not modelled. They are presentation and framework plumbing.
- React's state updates are modelled as one synchronous step per operation. Batching and re-render scheduling are not modelled.
