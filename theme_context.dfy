/**
 * The theme provider: two themes, an initial theme taken from the saved value
 * when that value is a valid theme, and a toggle between the two.
 */
module ThemeContext {
  import opened Wrappers

  const LightSlate: string := "light-slate"
  const DarkSlate: string := "dark-slate"
  const ValidThemes: seq<string> := [LightSlate, DarkSlate]

  /** The `initialTheme` used when the provider is given none. */
  const DefaultInitialTheme: string := DarkSlate

  /** The state initialiser, given whether `window` exists and the saved value, if any. */
  function InitialTheme(hasWindow: bool, saved: Option<string>, initialTheme: string): (t: string)
    ensures hasWindow && saved.Some? && saved.value in ValidThemes ==> t == saved.value
    ensures !(hasWindow && saved.Some? && saved.value in ValidThemes) ==> t == initialTheme
  {
    if hasWindow && saved.Some? && saved.value != "" && saved.value in ValidThemes then saved.value
    else initialTheme
  }

  /** `toggleTheme`'s update: light to dark, and anything else to light. */
  function Toggle(prev: string): (t: string)
    ensures t in ValidThemes
    ensures prev == LightSlate ==> t == DarkSlate
    ensures prev != LightSlate ==> t == LightSlate
  {
    if prev == LightSlate then DarkSlate
    else if prev == DarkSlate then LightSlate
    else LightSlate
  }

  /** Toggling twice returns to a valid theme, and never stays put in one toggle. */
  lemma ToggleTwoCycle(t: string)
    requires t in ValidThemes
    ensures Toggle(Toggle(t)) == t
    ensures Toggle(t) != t
  {
  }

  class ThemeProvider {
    var theme: string

    predicate Valid()
      reads this
    {
      theme in ValidThemes
    }

    constructor (hasWindow: bool, saved: Option<string>, initialTheme: string)
      requires initialTheme in ValidThemes
      ensures Valid()
      ensures theme == InitialTheme(hasWindow, saved, initialTheme)
    {
      theme := InitialTheme(hasWindow, saved, initialTheme);
    }

    method SetTheme(t: string)
      requires t in ValidThemes
      modifies this
      ensures Valid() && theme == t
    {
      theme := t;
    }

    method ToggleTheme()
      modifies this
      ensures Valid()
      ensures theme == Toggle(old(theme))
    {
      if theme == LightSlate {
        theme := DarkSlate;
      } else if theme == DarkSlate {
        theme := LightSlate;
      } else {
        theme := LightSlate;
      }
    }
  }

  /** The outcome of the context's `useTheme`: the provider, or the error it throws outside one. */
  datatype Lookup = Found(provider: ThemeProvider) | Thrown(message: string)

  /** The context's `useTheme`, given the nearest provider if there is one. */
  function UseTheme(ctx: Option<ThemeProvider>): (r: Lookup)
    ensures ctx.Some? <==> r.Found?
    ensures ctx.Some? ==> r.provider == ctx.value
    ensures ctx.None? ==> r.message == "useTheme must be used within a ThemeProvider"
  {
    match ctx
    case Some(p) => Found(p)
    case None => Thrown("useTheme must be used within a ThemeProvider")
  }
}
