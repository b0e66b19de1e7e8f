/**
 * The theme controller: one current theme, mirrored into the persisted
 * preference under the key "theme", into the document's `data-theme`
 * attribute and into the toggle button's icon.
 */
module Theme {
  import opened Wrappers

  const ThemeKey: string := "theme"
  const Light: string := "light"
  const Dark: string := "dark"

  /** The icon class the toggle button shows for a theme. */
  function IconFor(theme: string): (icon: string)
  {
    if theme == Dark then "fas fa-sun" else "fas fa-moon"
  }

  /**
   * The theme read at start-up: the stored value, unless it is absent or the
   * empty string (both falsy in `stored || 'light'`).
   */
  function InitialTheme(stored: Option<string>): (theme: string)
    ensures theme == Light || stored == Some(theme)
    ensures stored.Some? && stored.value != "" ==> theme == stored.value
    ensures stored == None || stored == Some("") ==> theme == Light
    ensures theme != ""
  {
    match stored
    case Some(t) => if t != "" then t else Light
    case None => Light
  }

  /** The theme `toggleTheme` switches to: light goes dark, anything else goes light. */
  function Toggled(theme: string): (next: string)
  {
    if theme == Light then Dark else Light
  }

  /** The theme after `n` toggles. */
  function ToggledTimes(theme: string, n: nat): (t: string)
  {
    if n == 0 then theme else Toggled(ToggledTimes(theme, n - 1))
  }

  /** A toggle always lands on one of the two known themes, and never stays put on a known one. */
  lemma ToggledIsKnown(theme: string)
    ensures Toggled(theme) == Light || Toggled(theme) == Dark
    ensures theme == Light || theme == Dark ==> Toggled(theme) != theme
  {
  }

  /** Two toggles restore a known theme; an unknown stored value ends up dark. */
  lemma ToggleTwice(theme: string)
    ensures theme == Light || theme == Dark ==> Toggled(Toggled(theme)) == theme
    ensures theme != Light && theme != Dark ==> Toggled(Toggled(theme)) == Dark
  {
  }

  /** Starting from light, an even number of toggles gives light and an odd number dark. */
  lemma {:induction false} ToggleParity(n: nat)
    ensures ToggledTimes(Light, n) == if n % 2 == 0 then Light else Dark
  {
    if n > 0 {
      ToggleParity(n - 1);
    }
  }

  class ThemeManager {
    /** `this.currentTheme` */
    var currentTheme: string
    /** The browser's preference store (only the key "theme" is touched). */
    var storage: map<string, string>
    /** The `data-theme` attribute of the document element. */
    var documentTheme: string
    /** The class of the icon inside the toggle button. */
    var iconClass: string

    /** The theme is applied everywhere and persisted. */
    ghost predicate Valid()
      reads this
    {
      && ThemeKey in storage
      && storage[ThemeKey] == currentTheme
      && documentTheme == currentTheme
      && iconClass == IconFor(currentTheme)
    }

    /** Reads the stored preference (default light) and applies it. */
    constructor (store: map<string, string>)
      ensures Valid()
      ensures currentTheme == InitialTheme(if ThemeKey in store then Some(store[ThemeKey]) else None)
      ensures storage == store[ThemeKey := currentTheme]
    {
      var stored := if ThemeKey in store then Some(store[ThemeKey]) else None;
      currentTheme := InitialTheme(stored);
      storage := store;
      documentTheme := "";
      iconClass := "";
      new;
      SetTheme(currentTheme);
    }

    /** Applies and persists `theme`; every other stored key is left alone. */
    method SetTheme(theme: string)
      modifies this
      ensures Valid()
      ensures currentTheme == theme
      ensures storage == old(storage)[ThemeKey := theme]
    {
      documentTheme := theme;
      storage := storage[ThemeKey := theme];
      currentTheme := theme;
      iconClass := IconFor(theme);
    }

    /** Switches light to dark and anything else to light. */
    method ToggleTheme()
      modifies this
      ensures Valid()
      ensures currentTheme == Toggled(old(currentTheme))
      ensures storage == old(storage)[ThemeKey := currentTheme]
    {
      SetTheme(Toggled(currentTheme));
    }
  }
}
