/**
 * The saved-colour store of src/context/ColorContext.tsx: the current colour,
 * the collection of saved colours (newest first) and its mirror in the
 * browser's key-value storage under the key "savedColors".
 */
module ColorContext {
  import opened Wrappers
  import opened ColorTypes

  /** The storage key the collection is mirrored under. */
  const SavedColorsKey: string := "savedColors"

  /** Local storage, holding structured values rather than their JSON text. */
  type Storage = map<string, seq<SavedColor>>

  // ---------------------------------------------------------------------
  // The collection as a value
  // ---------------------------------------------------------------------

  /** The collection a fresh provider starts from: the stored list, or empty. */
  function LoadSavedColors(storage: Storage): seq<SavedColor> {
    if SavedColorsKey in storage then storage[SavedColorsKey] else []
  }

  /** The ids in a collection. */
  function Ids(list: seq<SavedColor>): set<string> {
    set i | 0 <= i < |list| :: list[i].id
  }

  /** No two records share an id. */
  predicate DistinctIds(list: seq<SavedColor>) {
    forall i, j :: 0 <= i < j < |list| ==> list[i].id != list[j].id
  }

  /** `{ ...color, id, timestamp }`: the colour's fields with the new id and timestamp. */
  function NewRecord(color: ColorInfo, id: string, timestamp: int): SavedColor {
    SavedColor(color.hex, color.rgb, color.name, id, timestamp)
  }

  /** `[newColor, ...prev]`. */
  function Prepend(list: seq<SavedColor>, record: SavedColor): seq<SavedColor> {
    [record] + list
  }

  /** `prev.filter((color) => color.id !== id)`. */
  function WithoutId(list: seq<SavedColor>, id: string): (kept: seq<SavedColor>)
    ensures |kept| <= |list|
  {
    if list == [] then []
    else (if list[0].id == id then [] else [list[0]]) + WithoutId(list[1..], id)
  }

  /** The filter keeps exactly the records whose id differs from the one deleted. */
  lemma {:induction false} WithoutIdMembers(list: seq<SavedColor>, id: string)
    ensures forall x :: x in WithoutId(list, id) <==> x in list && x.id != id
  {
    if list != [] {
      WithoutIdMembers(list[1..], id);
      assert list == [list[0]] + list[1..];
    }
  }

  // ---------------------------------------------------------------------
  // Properties of saving
  // ---------------------------------------------------------------------

  /**
   * Saving puts the new record first, carrying the colour's hex, rgb and name
   * and the given id and timestamp; the old records follow, unchanged and in
   * order, so the collection grows by exactly one.
   */
  lemma SaveShape(list: seq<SavedColor>, color: ColorInfo, id: string, timestamp: int)
    ensures var saved := Prepend(list, NewRecord(color, id, timestamp));
      && |saved| == |list| + 1
      && saved[0].hex == color.hex && saved[0].rgb == color.rgb && saved[0].name == color.name
      && saved[0].id == id && saved[0].timestamp == timestamp
      && saved[1..] == list
  {
  }

  /** Saving twice: the second colour comes first, the first colour second. */
  lemma SaveNewestFirst(list: seq<SavedColor>, a: ColorInfo, idA: string, tA: int, b: ColorInfo, idB: string, tB: int)
    ensures var saved := Prepend(Prepend(list, NewRecord(a, idA, tA)), NewRecord(b, idB, tB));
      saved[0].id == idB && saved[0].hex == b.hex && saved[1].id == idA && saved[1].hex == a.hex
  {
  }

  /** Saving a record whose id is fresh keeps ids pairwise distinct. */
  lemma SaveKeepsIdsDistinct(list: seq<SavedColor>, record: SavedColor)
    requires DistinctIds(list) && record.id !in Ids(list)
    ensures DistinctIds(Prepend(list, record))
    ensures Ids(Prepend(list, record)) == Ids(list) + {record.id}
  {
    var saved := Prepend(list, record);
    forall i, j | 0 <= i < j < |saved| ensures saved[i].id != saved[j].id {
      if i == 0 {
        assert saved[j].id == list[j - 1].id;
      }
    }
    forall x | x in Ids(saved) ensures x in Ids(list) + {record.id} {
      var i :| 0 <= i < |saved| && saved[i].id == x;
      if i > 0 {
        assert x == list[i - 1].id;
      }
    }
    forall x | x in Ids(list) ensures x in Ids(saved) {
      var i :| 0 <= i < |list| && list[i].id == x;
      assert saved[i + 1].id == x;
    }
    assert saved[0].id == record.id;
  }

  // ---------------------------------------------------------------------
  // Properties of deleting
  // ---------------------------------------------------------------------

  /** The filter works piecewise: filtering a concatenation filters each part. */
  lemma {:induction false} WithoutIdAppend(a: seq<SavedColor>, b: seq<SavedColor>, id: string)
    ensures WithoutId(a + b, id) == WithoutId(a, id) + WithoutId(b, id)
  {
    if a != [] {
      var head := if a[0].id == id then [] else [a[0]];
      assert (a + b)[0] == a[0] && (a + b)[1..] == a[1..] + b;
      WithoutIdAppend(a[1..], b, id);
      calc {
        WithoutId(a + b, id);
        head + WithoutId(a[1..] + b, id);
        head + (WithoutId(a[1..], id) + WithoutId(b, id));
        (head + WithoutId(a[1..], id)) + WithoutId(b, id);
        WithoutId(a, id) + WithoutId(b, id);
      }
    } else {
      assert a + b == b;
    }
  }

  /**
   * What the filter does to one record: drops it when its id matches, keeps
   * it otherwise. With WithoutIdAppend this pins the result down, and says
   * the kept records stay in their original relative order.
   */
  lemma WithoutIdSingle(x: SavedColor, id: string)
    ensures WithoutId([x], id) == if x.id == id then [] else [x]
  {
  }

  /** Deleting an id no record has leaves the collection unchanged. */
  lemma {:induction false} WithoutIdAbsent(list: seq<SavedColor>, id: string)
    requires id !in Ids(list)
    ensures WithoutId(list, id) == list
  {
    if list != [] {
      assert list[0].id in Ids(list);
      assert Ids(list[1..]) <= Ids(list) by {
        forall x | x in Ids(list[1..]) ensures x in Ids(list) {
          var i :| 0 <= i < |list[1..]| && list[1..][i].id == x;
          assert list[i + 1].id == x;
        }
      }
      WithoutIdAbsent(list[1..], id);
    }
  }

  /** After deleting an id, no record carries it. */
  lemma WithoutIdRemovesId(list: seq<SavedColor>, id: string)
    ensures Ids(WithoutId(list, id)) == Ids(list) - {id}
  {
    var kept := WithoutId(list, id);
    WithoutIdMembers(list, id);
    forall x | x in Ids(kept) ensures x in Ids(list) - {id} {
      var i :| 0 <= i < |kept| && kept[i].id == x;
      assert kept[i] in list;
    }
    forall x | x in Ids(list) - {id} ensures x in Ids(kept) {
      var i :| 0 <= i < |list| && list[i].id == x;
      assert list[i] in kept;
    }
  }

  /** Deleting twice is deleting once. */
  lemma WithoutIdIdempotent(list: seq<SavedColor>, id: string)
    ensures WithoutId(WithoutId(list, id), id) == WithoutId(list, id)
  {
    WithoutIdRemovesId(list, id);
    WithoutIdAbsent(WithoutId(list, id), id);
  }

  /** Deleting keeps ids pairwise distinct. */
  lemma {:induction false} WithoutIdKeepsIdsDistinct(list: seq<SavedColor>, id: string)
    requires DistinctIds(list)
    ensures DistinctIds(WithoutId(list, id))
  {
    if list != [] {
      var rest := list[1..];
      assert DistinctIds(rest);
      WithoutIdKeepsIdsDistinct(rest, id);
      WithoutIdMembers(rest, id);
      if list[0].id != id {
        var kept := WithoutId(list, id);
        assert kept == [list[0]] + WithoutId(rest, id);
        forall j | 0 < j < |kept| ensures kept[0].id != kept[j].id {
          assert kept[j] in rest;
        }
      }
    }
  }

  /** With distinct ids, deleting a present id removes exactly one record. */
  lemma {:induction false} WithoutIdRemovesOne(list: seq<SavedColor>, id: string)
    requires DistinctIds(list) && id in Ids(list)
    ensures |WithoutId(list, id)| == |list| - 1
  {
    var rest := list[1..];
    assert DistinctIds(rest);
    if list[0].id == id {
      assert id !in Ids(rest) by {
        forall i | 0 <= i < |rest| ensures rest[i].id != id {
          assert rest[i] == list[i + 1];
        }
      }
      WithoutIdAbsent(rest, id);
    } else {
      var i :| 0 <= i < |list| && list[i].id == id;
      assert rest[i - 1].id == id;
      WithoutIdRemovesOne(rest, id);
    }
  }

  // ---------------------------------------------------------------------
  // The provider
  // ---------------------------------------------------------------------

  /**
   * The state ColorProvider keeps: `currentColor`, `savedColors` and the part
   * of local storage it writes. Every mutation of the collection writes the
   * new list to storage (or, for clear, removes the key).
   */
  class ColorProvider {
    var currentColor: Option<ColorInfo>
    var savedColors: seq<SavedColor>
    var storage: Storage

    /** Storage mirrors the collection: reloading it gives the collection back. */
    ghost predicate Mirrored()
      reads this
    {
      LoadSavedColors(storage) == savedColors
    }

    /** Mounting the provider: no current colour, the collection read back from storage. */
    constructor (stored: Storage)
      ensures currentColor == None
      ensures savedColors == LoadSavedColors(stored)
      ensures storage == stored
      ensures Mirrored()
    {
      currentColor := None;
      savedColors := LoadSavedColors(stored);
      storage := stored;
    }

    /** `setCurrentColor`: replaces the current colour, leaves the collection alone. */
    method SetCurrentColor(color: Option<ColorInfo>)
      modifies this
      ensures currentColor == color
      ensures savedColors == old(savedColors) && storage == old(storage)
    {
      currentColor := color;
    }

    /**
     * `saveColor`, with the uuid and the clock reading supplied by the caller:
     * the new record goes first and the list is written to storage.
     */
    method SaveColor(color: ColorInfo, id: string, timestamp: int)
      modifies this
      ensures savedColors == Prepend(old(savedColors), NewRecord(color, id, timestamp))
      ensures storage == old(storage)[SavedColorsKey := savedColors]
      ensures currentColor == old(currentColor)
      ensures Mirrored()
      ensures DistinctIds(old(savedColors)) && id !in Ids(old(savedColors)) ==> DistinctIds(savedColors)
    {
      var updated := Prepend(savedColors, NewRecord(color, id, timestamp));
      if DistinctIds(savedColors) && id !in Ids(savedColors) {
        SaveKeepsIdsDistinct(savedColors, NewRecord(color, id, timestamp));
      }
      storage := storage[SavedColorsKey := updated];
      savedColors := updated;
    }

    /** `deleteColor`: every record with this id goes, the rest stay in order; storage follows. */
    method DeleteColor(id: string)
      modifies this
      ensures savedColors == WithoutId(old(savedColors), id)
      ensures storage == old(storage)[SavedColorsKey := savedColors]
      ensures currentColor == old(currentColor)
      ensures Mirrored()
      ensures id !in Ids(savedColors)
      ensures DistinctIds(old(savedColors)) ==> DistinctIds(savedColors)
    {
      var updated := WithoutId(savedColors, id);
      WithoutIdRemovesId(savedColors, id);
      if DistinctIds(savedColors) {
        WithoutIdKeepsIdsDistinct(savedColors, id);
      }
      storage := storage[SavedColorsKey := updated];
      savedColors := updated;
    }

    /** `clearSavedColors`: the collection empties and its storage key is removed. */
    method ClearSavedColors()
      modifies this
      ensures savedColors == []
      ensures storage == old(storage) - {SavedColorsKey}
      ensures SavedColorsKey !in storage
      ensures currentColor == old(currentColor)
      ensures Mirrored()
    {
      savedColors := [];
      storage := storage - {SavedColorsKey};
    }
  }

  /** Save then delete of the same fresh id restores the collection. */
  lemma SaveThenDelete(list: seq<SavedColor>, color: ColorInfo, id: string, timestamp: int)
    requires id !in Ids(list)
    ensures WithoutId(Prepend(list, NewRecord(color, id, timestamp)), id) == list
  {
    WithoutIdAppend([NewRecord(color, id, timestamp)], list, id);
    WithoutIdAbsent(list, id);
  }

  /** A collection saved in one session is what the next session starts from. */
  method SaveThenReload(stored: Storage, color: ColorInfo, id: string, timestamp: int)
    returns (reloaded: seq<SavedColor>)
    ensures reloaded == Prepend(LoadSavedColors(stored), NewRecord(color, id, timestamp))
  {
    var first := new ColorProvider(stored);
    first.SaveColor(color, id, timestamp);
    var second := new ColorProvider(first.storage);
    reloaded := second.savedColors;
  }
}
