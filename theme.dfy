/** The `useTheme` hook (src/hooks/useTheme.ts): a theme string resolved once
    from the stored preference or the system colour-scheme preference, and an
    effect that, whenever the theme changes, marks the document root with it
    and writes it under the storage key "theme".

    The theme is a plain string: the stored value is returned unchecked, so the
    model does not assume it is one of the two names. */
module ThemeHook {
  import opened Collections

  const ThemeKey := "theme"
  const Light := "light"
  const Dark := "dark"

  /** What the initializer can observe when `window` exists: the theme
      record in `localStorage` and the `(prefers-color-scheme: dark)` query. */
  datatype Window = Window(storage: map<string, string>, prefersDark: bool)

  /** The stored preference counts only when present and non-empty: both a
      missing record (`null`) and `""` are falsy. */
  predicate HasSavedTheme(storage: map<string, string>)
  {
    ThemeKey in storage && storage[ThemeKey] != ""
  }

  /** The `useState` initializer. With no `window` (rendering outside a
      browser) the theme is light. */
  function InitialTheme(window: Option<Window>): (t: string)
    ensures window.None? ==> t == Light
    ensures window.Some? && HasSavedTheme(window.value.storage) ==> t == window.value.storage[ThemeKey]
    ensures window.Some? && !HasSavedTheme(window.value.storage) ==>
              (t == Dark <==> window.value.prefersDark) && (t == Light <==> !window.value.prefersDark)
  {
    match window
    case None => Light
    case Some(w) =>
      if HasSavedTheme(w.storage) then w.storage[ThemeKey]
      else if w.prefersDark then Dark else Light
  }

  /** Once a theme has been persisted, the next start-up resolves to it, whatever
      the system preference says. */
  lemma PersistedThemeWinsOnReload(storage: map<string, string>, t: string, prefersDark: bool)
    requires t != ""
    ensures InitialTheme(Some(Window(storage[ThemeKey := t], prefersDark))) == t
  {
  }

  /** `DOMTokenList.add` accepts a token only when it is non-empty and holds no
      ASCII whitespace (tab, line feed, form feed, carriage return, space);
      otherwise it throws. */
  predicate IsToken(t: string)
    ensures IsToken(t) ==> t != [] && ' ' !in t
    ensures t == Light || t == Dark ==> IsToken(t)
  {
    t != [] && forall i :: 0 <= i < |t| ==> t[i] !in {'\t', '\n', '\U{000C}', '\r', ' '}
  }

  /** The root's class set after `remove("light", "dark")` then `add(theme)`. */
  function MarkedClasses(classes: set<string>, theme: string): (r: set<string>)
    ensures theme in r
    ensures forall c :: c in r <==> c == theme || (c in classes && c != Light && c != Dark)
  {
    (classes - {Light, Dark}) + {theme}
  }

  /** For either known theme, exactly one of the two markers is present and it
      is the current theme. */
  lemma KnownThemeHasOneMarker(classes: set<string>, theme: string)
    requires theme == Light || theme == Dark
    ensures (Light in MarkedClasses(classes, theme)) <==> theme == Light
    ensures (Dark in MarkedClasses(classes, theme)) <==> theme == Dark
  {
  }

  /** An unexpected stored theme (say "blue") leaves the root with neither marker. */
  lemma UnknownThemeHasNoMarker(classes: set<string>, theme: string)
    requires theme != Light && theme != Dark
    ensures Light !in MarkedClasses(classes, theme) && Dark !in MarkedClasses(classes, theme)
  {
  }

  /** The hook instance: the current theme and the two pieces of the page it
      keeps in step, the root's class list and `localStorage`. */
  class ThemeState {
    var theme: string
    var classes: set<string>
    var storage: map<string, string>

    /** The theme is applied to the root and persisted. */
    predicate Synced()
      reads this
    {
      classes == MarkedClasses(classes, theme) && ThemeKey in storage && storage[ThemeKey] == theme
    }

    /** Mounting in a browser: resolve the initial theme, then run the effect. */
    constructor (window: Window, classes: set<string>)
      ensures theme == InitialTheme(Some(window))
      ensures IsToken(theme) ==> Synced() && this.classes == MarkedClasses(classes, theme)
      ensures IsToken(theme) ==> storage == window.storage[ThemeKey := theme]
      ensures !IsToken(theme) ==> this.classes == classes - {Light, Dark} && storage == window.storage
    {
      theme := InitialTheme(Some(window));
      this.classes := classes;
      storage := window.storage;
      new;
      var _ := ApplyEffect();
    }

    /** The effect body. `ok` is false when `add` throws on a malformed token:
        both markers are already gone and nothing is persisted. */
    method ApplyEffect() returns (ok: bool)
      modifies this
      ensures theme == old(theme)
      ensures ok <==> IsToken(theme)
      ensures ok ==> classes == MarkedClasses(old(classes), theme) && storage == old(storage)[ThemeKey := theme]
      ensures !ok ==> classes == old(classes) - {Light, Dark} && storage == old(storage)
      ensures ok ==> Synced()
    {
      classes := classes - {Light, Dark};
      ok := IsToken(theme);
      if ok {
        classes := classes + {theme};
        storage := storage[ThemeKey := theme];
      }
    }

    /** `setTheme(t)`: the effect runs only when the theme actually changes. */
    method SetTheme(t: string)
      modifies this
      ensures theme == t
      ensures t == old(theme) ==> classes == old(classes) && storage == old(storage)
      ensures t != old(theme) && IsToken(t) ==>
                classes == MarkedClasses(old(classes), t) && storage == old(storage)[ThemeKey := t]
      ensures t != old(theme) && !IsToken(t) ==>
                classes == old(classes) - {Light, Dark} && storage == old(storage)
      ensures IsToken(t) && (t != old(theme) || old(Synced())) ==> Synced()
    {
      if t != theme {
        theme := t;
        var _ := ApplyEffect();
      }
    }
  }
}
