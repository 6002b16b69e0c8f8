/** The theme controller (static/script.js:16-26): the `data-theme` attribute of
    the root element, restored from the `theme` cookie on load and flipped by
    the toggle button, which also writes the cookie. */
module Theme {
  import opened Wrappers
  import opened Cookie

  const ThemeCookie: string := "theme"
  const Dark: string := "dark"
  const Light: string := "light"

  /** `getCookie('theme') || 'dark'`: the value of the first `theme` entry of
      the cookie string, or `"dark"` when there is none (or it is empty). */
  function InitialTheme(documentCookie: string): (t: string)
    ensures t != []
  {
    var saved := GetCookie(documentCookie, ThemeCookie);
    if saved.Some? && saved.value != [] then saved.value else Dark
  }

  /** The toggle: `"dark"` becomes `"light"`, every other value `"dark"`. */
  function Toggled(current: string): (next: string)
    ensures next == Dark || next == Light
    ensures next == Light <==> current == Dark
  {
    if current == Dark then Light else Dark
  }

  /** Toggling twice restores the theme exactly when it was one of the two
      known values. */
  lemma ToggleTwice(t: string)
    ensures Toggled(Toggled(t)) == t <==> t == Dark || t == Light
  {
  }

  /** An unknown saved value such as `"blue"` is not restored by two toggles:
      the first gives `"dark"`, the second `"light"`. */
  lemma UnknownThemeNotRestored()
    ensures Toggled("blue") == Dark && Toggled(Toggled("blue")) == Light
  {
    assert "blue"[0] != Dark[0];
  }

  /** Without a `theme` entry the page starts dark; with one, it starts with
      that entry's value. */
  lemma InitialThemeFromCookie(documentCookie: string)
    ensures GetCookie(documentCookie, ThemeCookie).None? ==> InitialTheme(documentCookie) == Dark
    ensures GetCookie(documentCookie, ThemeCookie).Some? ==>
              InitialTheme(documentCookie) == GetCookie(documentCookie, ThemeCookie).value
              && (forall k :: 0 <= k < |InitialTheme(documentCookie)| ==> InitialTheme(documentCookie)[k] != ';')
  {
  }

  /** Round trip: the cookie pair the toggle writes restores, on the next load,
      the theme it was written for. */
  lemma ReloadRestoresTheme(t: string)
    requires t == Dark || t == Light
    ensures InitialTheme(CookiePair(ThemeCookie, t)) == t
  {
    GetCookieOfPair(ThemeCookie, t);
  }

  /** The page's theme state: the root element's `data-theme` attribute and the
      value the `theme` cookie holds (`None` when it is not set). */
  class ThemeController {
    var dataTheme: string
    var themeCookie: Option<string>

    /** Page load: the attribute is set from the cookie; the cookie is not written. */
    constructor (documentCookie: string)
      ensures dataTheme == InitialTheme(documentCookie)
      ensures themeCookie == GetCookie(documentCookie, ThemeCookie)
    {
      dataTheme := InitialTheme(documentCookie);
      themeCookie := GetCookie(documentCookie, ThemeCookie);
    }

    /** The attribute and the stored cookie agree. */
    predicate Persisted()
      reads this
    {
      themeCookie == Some(dataTheme)
    }

    /** `setCookie(name, value, days)` for the `theme` cookie. */
    method SetThemeCookie(value: string)
      modifies this`themeCookie
      ensures themeCookie == Some(value)
    {
      themeCookie := Some(value);
    }

    /** Click on the toggle button: flip the attribute, then persist it. */
    method OnToggleClick()
      modifies this
      ensures dataTheme == Toggled(old(dataTheme))
      ensures dataTheme == Dark || dataTheme == Light
      ensures Persisted()
    {
      var newTheme := Toggled(dataTheme);
      dataTheme := newTheme;
      SetThemeCookie(newTheme);
    }
  }

  /** A toggle, then a reload that sees only the cookie the toggle wrote: the
      reloaded page shows the toggled theme. */
  method ToggleThenReload(documentCookie: string)
  {
    var page := new ThemeController(documentCookie);
    page.OnToggleClick();
    ReloadRestoresTheme(page.dataTheme);
    var reloaded := new ThemeController(CookiePair(ThemeCookie, page.themeCookie.value));
    assert reloaded.dataTheme == page.dataTheme;
  }
}
