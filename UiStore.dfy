/**
 * The UI preference store of src/store/uiStore.js: the theme and the
 * reduced-motion flag persisted in the browser's key/value storage, the
 * theme applied to the document root (its `data-theme` attribute and its
 * `dark` class), the cursor label and the scroll progress.
 *
 * The browser is modelled by values: local storage is a map from keys to
 * strings, the document root is a `Dom` value, and the two media queries
 * (prefers-color-scheme: dark, prefers-reduced-motion: reduce) are booleans.
 */
module UiStore {
  import opened Wrappers

  const ThemeKey := "theme"
  const ReducedKey := "reducedFX"

  const SystemTheme := "system"
  const LightTheme := "light"
  const DarkTheme := "dark"

  /** What the store sets on the document root element. */
  datatype Dom = Dom(dataTheme: string, dark: bool)

  /** A theme the DOM rule recognises by name; every other string behaves as "system". */
  predicate IsExplicitTheme(t: string) {
    t == DarkTheme || t == LightTheme
  }

  /**
   * The `applyThemeDom` rule: "dark" and "light" set themselves; any other
   * value shows as "system" and follows the operating system's preference.
   */
  function ThemeDom(t: string, systemDark: bool): (d: Dom)
    ensures d.dark <==> t == DarkTheme || (!IsExplicitTheme(t) && systemDark)
    ensures IsExplicitTheme(t) ==> d.dataTheme == t
    ensures !IsExplicitTheme(t) ==> d.dataTheme == SystemTheme
  {
    if t == DarkTheme then Dom(DarkTheme, true)
    else if t == LightTheme then Dom(LightTheme, false)
    else Dom(SystemTheme, systemDark)
  }

  /** The DOM state depends on the operating system only while the theme is not explicit. */
  lemma ThemeDomFollowsSystemOnlyWhenImplicit(t: string)
    ensures IsExplicitTheme(t) <==> ThemeDom(t, true) == ThemeDom(t, false)
  {
  }

  /** `localStorage.getItem(key)`: None stands for `null`. */
  function GetItem(storage: map<string, string>, key: string): (r: Option<string>)
    ensures r.Some? <==> key in storage
    ensures r.Some? ==> r.value == storage[key]
  {
    if key in storage then Some(storage[key]) else None
  }

  /** The theme the store starts with: the stored one, or "system" when it is missing or empty. */
  function InitialTheme(storage: map<string, string>): (t: string)
    ensures t != ""
    ensures ThemeKey in storage && storage[ThemeKey] != "" ==> t == storage[ThemeKey]
    ensures ThemeKey !in storage || storage[ThemeKey] == "" ==> t == SystemTheme
  {
    match GetItem(storage, ThemeKey)
    case Some(v) => if v != "" then v else SystemTheme
    case None => SystemTheme
  }

  /**
   * The reduced-motion flag the store starts with: the stored string decides
   * when the key is present (only "true" means on); otherwise the operating
   * system's reduced-motion preference.
   */
  function InitialReducedFX(storage: map<string, string>, prefersReduced: bool): (b: bool)
    ensures ReducedKey in storage && storage[ReducedKey] == "true" ==> b
    ensures ReducedKey in storage && storage[ReducedKey] != "true" ==> !b
    ensures ReducedKey !in storage ==> b == prefersReduced
  {
    match GetItem(storage, ReducedKey)
    case Some(v) => v == "true"
    case None => prefersReduced
  }

  /** JavaScript's `String(b)` on a boolean. */
  function BoolString(b: bool): (s: string)
    ensures s == "true" || s == "false"
    ensures (s == "true") == b
  {
    if b then "true" else "false"
  }

  /** Writing `String(b)` under "reducedFX" makes the next start-up read `b` back. */
  lemma ReducedFXRoundTrip(storage: map<string, string>, b: bool, prefersReduced: bool)
    ensures InitialReducedFX(storage[ReducedKey := BoolString(b)], prefersReduced) == b
  {
  }

  /**
   * Writing `t` under "theme" makes the next start-up read `t` back when `t`
   * is non-empty, and in every case apply the same DOM state as `t` does.
   */
  lemma ThemeRoundTrip(storage: map<string, string>, t: string, systemDark: bool)
    ensures t != "" ==> InitialTheme(storage[ThemeKey := t]) == t
    ensures ThemeDom(InitialTheme(storage[ThemeKey := t]), systemDark) == ThemeDom(t, systemDark)
  {
  }

  /** `Math.min` and `Math.max` on numbers that are not NaN. */
  function Min(a: real, b: real): (r: real)
    ensures r <= a && r <= b && (r == a || r == b)
  {
    if a <= b then a else b
  }

  function Max(a: real, b: real): (r: real)
    ensures r >= a && r >= b && (r == a || r == b)
  {
    if a >= b then a else b
  }

  /** `Math.max(0, Math.min(1, p))`: the nearest point of [0, 1]. */
  function Clamp01(p: real): (r: real)
    ensures 0.0 <= r <= 1.0
    ensures 0.0 <= p <= 1.0 ==> r == p
    ensures p < 0.0 ==> r == 0.0
    ensures p > 1.0 ==> r == 1.0
  {
    Max(0.0, Min(1.0, p))
  }

  lemma Clamp01Idempotent(p: real)
    ensures Clamp01(Clamp01(p)) == Clamp01(p)
  {
  }

  /** Clamping preserves order: a larger input never gives a smaller progress. */
  lemma Clamp01Monotonic(p: real, q: real)
    requires p <= q
    ensures Clamp01(p) <= Clamp01(q)
  {
  }

  /**
   * The store together with the browser state it writes (storage, document
   * root) and the last colour-scheme preference the browser reported.
   */
  class UIStore {
    var theme: string
    var reducedFX: bool
    var cursorLabel: Option<string>  // None is `null`
    var scrollProgress: real

    var storage: map<string, string>
    var dom: Dom
    var systemDark: bool

    /**
     * The progress stays in [0, 1]; `data-theme` always matches the theme;
     * and for the three named themes the whole DOM state matches. (An
     * unrecognised theme shows as "system", but the colour-scheme listener
     * does not re-apply it, so its `dark` class may lag behind the system.)
     */
    ghost predicate Valid()
      reads this
    {
      && 0.0 <= scrollProgress <= 1.0
      && dom.dataTheme == ThemeDom(theme, systemDark).dataTheme
      && (theme == SystemTheme || IsExplicitTheme(theme) ==> dom == ThemeDom(theme, systemDark))
    }

    /** Store creation: read both preferences from storage and apply the theme. */
    constructor (storage: map<string, string>, systemDark: bool, prefersReduced: bool)
      ensures Valid()
      ensures theme == InitialTheme(storage)
      ensures reducedFX == InitialReducedFX(storage, prefersReduced)
      ensures cursorLabel == None && scrollProgress == 0.0
      ensures this.storage == storage && this.systemDark == systemDark
      ensures dom == ThemeDom(InitialTheme(storage), systemDark)
    {
      var t := InitialTheme(storage);
      theme := t;
      reducedFX := InitialReducedFX(storage, prefersReduced);
      cursorLabel := None;
      scrollProgress := 0.0;
      this.storage := storage;
      this.systemDark := systemDark;
      dom := ThemeDom(t, systemDark);
    }

    /** The prefers-color-scheme listener: re-apply only while the theme is exactly "system". */
    method OnSystemThemeChange(nowDark: bool)
      requires Valid()
      modifies this
      ensures Valid()
      ensures systemDark == nowDark
      ensures dom == if old(theme) == SystemTheme then ThemeDom(SystemTheme, nowDark) else old(dom)
      ensures theme == old(theme) && reducedFX == old(reducedFX)
      ensures cursorLabel == old(cursorLabel) && scrollProgress == old(scrollProgress)
      ensures storage == old(storage)
    {
      systemDark := nowDark;
      if theme == SystemTheme {
        dom := ThemeDom(SystemTheme, nowDark);
      }
    }

    /**
     * `setTheme(t)`: persist `t`, apply it to the DOM, and make it the
     * state's theme. `storageAccepts` is whether `localStorage.setItem`
     * succeeds; when it throws (storage full or disabled) the exception
     * leaves the updater before the DOM or the state is touched.
     */
    method SetTheme(t: string, storageAccepts: bool)
      requires Valid()
      modifies this
      ensures Valid()
      ensures storageAccepts ==> theme == t
      ensures storageAccepts ==> storage == old(storage)[ThemeKey := t]
      ensures storageAccepts ==> dom == ThemeDom(t, systemDark)
      ensures storageAccepts && t != "" ==> InitialTheme(storage) == t
      ensures !storageAccepts ==> theme == old(theme) && storage == old(storage) && dom == old(dom)
      ensures reducedFX == old(reducedFX) && cursorLabel == old(cursorLabel)
      ensures scrollProgress == old(scrollProgress) && systemDark == old(systemDark)
    {
      if !storageAccepts {
        return;
      }
      storage := storage[ThemeKey := t];
      dom := ThemeDom(t, systemDark);
      theme := t;
    }

    /**
     * `toggleReducedFX()`: flip the flag and persist the new value as a
     * string. When `localStorage.setItem` throws (`storageAccepts` false),
     * nothing changes.
     */
    method ToggleReducedFX(storageAccepts: bool)
      requires Valid()
      modifies this
      ensures Valid()
      ensures storageAccepts ==> reducedFX == !old(reducedFX)
      ensures storageAccepts ==> storage == old(storage)[ReducedKey := BoolString(reducedFX)]
      ensures forall prefersReduced: bool ::
                storageAccepts ==> InitialReducedFX(storage, prefersReduced) == reducedFX
      ensures !storageAccepts ==> reducedFX == old(reducedFX) && storage == old(storage)
      ensures theme == old(theme) && dom == old(dom) && systemDark == old(systemDark)
      ensures cursorLabel == old(cursorLabel) && scrollProgress == old(scrollProgress)
    {
      if !storageAccepts {
        return;
      }
      var next := !reducedFX;
      storage := storage[ReducedKey := BoolString(next)];
      reducedFX := next;
    }

    /** `setCursorLabel(label)`: any string, or None for `null` (the field starts as `null`). */
    method SetCursorLabel(text: Option<string>)
      requires Valid()
      modifies this
      ensures Valid()
      ensures cursorLabel == text
      ensures theme == old(theme) && reducedFX == old(reducedFX) && scrollProgress == old(scrollProgress)
      ensures storage == old(storage) && dom == old(dom) && systemDark == old(systemDark)
    {
      cursorLabel := text;
    }

    /** `setScrollProgress(p)`: store `p` clamped to [0, 1]. */
    method SetScrollProgress(p: real)
      requires Valid()
      modifies this
      ensures Valid()
      ensures scrollProgress == Clamp01(p)
      ensures 0.0 <= p <= 1.0 ==> scrollProgress == p
      ensures theme == old(theme) && reducedFX == old(reducedFX) && cursorLabel == old(cursorLabel)
      ensures storage == old(storage) && dom == old(dom) && systemDark == old(systemDark)
    {
      scrollProgress := Clamp01(p);
    }
  }

  /**
   * The listener's blind spot: with an unrecognised stored theme the root
   * shows "system", yet a later colour-scheme change leaves its `dark` class
   * as it was.
   */
  method UnrecognisedThemeKeepsStaleDark() returns (before: Dom, after: Dom)
    ensures before == after == Dom(SystemTheme, false)
    ensures after != ThemeDom("auto", true)
  {
    var s := new UIStore(map[ThemeKey := "auto"], false, false);
    before := s.dom;
    s.OnSystemThemeChange(true);
    after := s.dom;
  }
}
