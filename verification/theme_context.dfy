/**
 * The theme preference of src/context/ThemeContext.tsx: a light/dark switch
 * read once from local storage under "color-picker-theme" and written back
 * there whenever it changes.
 */
module ThemeContext {
  import opened Wrappers

  datatype Theme = Light | Dark

  /** The storage key the preference lives under. */
  const ThemeKey: string := "color-picker-theme"

  /** The string a theme is stored and exposed as. */
  function ThemeName(t: Theme): string {
    match t
    case Light => "light"
    case Dark => "dark"
  }

  /** Theme names are exactly "light" and "dark", and they differ. */
  lemma ThemeNames(t: Theme)
    ensures ThemeName(t) == "light" || ThemeName(t) == "dark"
    ensures ThemeName(t) == "dark" <==> t == Dark
  {
  }

  /** The stored value, if any (`localStorage.getItem`). */
  function Lookup(storage: map<string, string>, key: string): Option<string> {
    if key in storage then Some(storage[key]) else None
  }

  /**
   * The initial theme: dark only when the stored value is exactly "dark";
   * any other value, or none, gives light.
   */
  function InitialTheme(saved: Option<string>): (t: Theme)
    ensures t == Dark <==> saved == Some("dark")
  {
    if saved.Some? && saved.value == "dark" then Dark else Light
  }

  /** `prevTheme === 'light' ? 'dark' : 'light'`. */
  function Toggled(t: Theme): (u: Theme)
    ensures u != t
  {
    if t == Light then Dark else Light
  }

  /** Toggling twice restores the theme. */
  lemma ToggleInvolution(t: Theme)
    ensures Toggled(Toggled(t)) == t
  {
  }

  /** The theme after `n` toggles. */
  function ToggledTimes(t: Theme, n: nat): Theme {
    if n == 0 then t else Toggled(ToggledTimes(t, n - 1))
  }

  /** After `n` toggles the theme is back where it started exactly when `n` is even. */
  lemma {:induction false} ToggledTimesParity(t: Theme, n: nat)
    ensures ToggledTimes(t, n) == if n % 2 == 0 then t else Toggled(t)
  {
    if n > 0 {
      ToggledTimesParity(t, n - 1);
      ToggleInvolution(t);
    }
  }

  /** A stored theme is read back as the same theme on the next start. */
  lemma PersistRoundTrip(t: Theme)
    ensures InitialTheme(Some(ThemeName(t))) == t
  {
  }

  /** The state ThemeProvider keeps: the theme and the storage it writes. */
  class ThemeProvider {
    var theme: Theme
    var storage: map<string, string>

    /** Storage holds the current theme's name. */
    ghost predicate Persisted()
      reads this
    {
      Lookup(storage, ThemeKey) == Some(ThemeName(theme))
    }

    /**
     * Mounting: the theme is decided from the stored value, then the
     * persist effect runs once for it.
     */
    constructor (stored: map<string, string>)
      ensures theme == InitialTheme(Lookup(stored, ThemeKey))
      ensures storage == stored[ThemeKey := ThemeName(theme)]
      ensures Persisted()
    {
      theme := InitialTheme(Lookup(stored, ThemeKey));
      storage := stored;
      new;
      PersistTheme();
    }

    /** The effect run on every theme change: write the theme to storage. */
    method PersistTheme()
      modifies this`storage
      ensures storage == old(storage)[ThemeKey := ThemeName(theme)]
      ensures Persisted()
    {
      storage := storage[ThemeKey := ThemeName(theme)];
    }

    /** `toggleTheme`, followed by the effect its change triggers. */
    method ToggleTheme()
      modifies this
      ensures theme == Toggled(old(theme))
      ensures storage == old(storage)[ThemeKey := ThemeName(theme)]
      ensures Persisted()
    {
      theme := Toggled(theme);
      PersistTheme();
    }
  }

  /** Toggling, then starting a new provider from the same storage, shows the toggled theme. */
  method ToggleThenReload(stored: map<string, string>) returns (before: Theme, after: Theme)
    ensures before == InitialTheme(Lookup(stored, ThemeKey))
    ensures after == Toggled(before)
  {
    var first := new ThemeProvider(stored);
    before := first.theme;
    first.ToggleTheme();
    var second := new ThemeProvider(first.storage);
    PersistRoundTrip(first.theme);
    after := second.theme;
  }
}
