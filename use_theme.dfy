/**
 * The theme hook: four themes, an initial theme taken from the saved value when
 * that value is a valid theme, and a toggle that cycles through all four.
 */
module UseTheme {
  import opened Wrappers

  const LightSlate: string := "light-slate"
  const DarkSlate: string := "dark-slate"
  const LightGreen: string := "light-green"
  const DarkGreen: string := "dark-green"
  const ValidThemes: seq<string> := [LightSlate, DarkSlate, LightGreen, DarkGreen]

  /** The `initialTheme` used when the hook is given none. */
  const DefaultInitialTheme: string := DarkSlate

  /** The state initialiser, given whether `window` exists and the saved value, if any. */
  function InitialTheme(hasWindow: bool, saved: Option<string>, initialTheme: string): (t: string)
    ensures hasWindow && saved.Some? && saved.value in ValidThemes ==> t == saved.value
    ensures !(hasWindow && saved.Some? && saved.value in ValidThemes) ==> t == initialTheme
  {
    if hasWindow && saved.Some? && saved.value != "" && saved.value in ValidThemes then saved.value
    else initialTheme
  }

  /** `toggleTheme`'s update: light-slate, dark-slate, light-green, dark-green, and back. */
  function Toggle(prev: string): (t: string)
    ensures t in ValidThemes
    ensures prev == LightSlate ==> t == DarkSlate
    ensures prev == DarkSlate ==> t == LightGreen
    ensures prev == LightGreen ==> t == DarkGreen
    ensures prev !in [LightSlate, DarkSlate, LightGreen] ==> t == LightSlate
  {
    if prev == LightSlate then DarkSlate
    else if prev == DarkSlate then LightGreen
    else if prev == LightGreen then DarkGreen
    else LightSlate
  }

  /** `k` toggles in a row. */
  function Toggles(t: string, k: nat): (r: string)
    ensures k > 0 ==> r in ValidThemes
  {
    if k == 0 then t else Toggle(Toggles(t, k - 1))
  }

  /** Four toggles bring every valid theme back, and fewer never do. */
  lemma FourCycle(t: string, k: nat)
    requires t in ValidThemes
    ensures Toggles(t, 4) == t
    ensures 0 < k < 4 ==> Toggles(t, k) != t
  {
  }

  /** Toggles from any value, valid or not, enter the cycle after one step. */
  lemma ToggleEntersCycle(t: string)
    ensures Toggles(Toggle(t), 4) == Toggle(t)
  {
    FourCycle(Toggle(t), 1);
  }

  class Hook {
    var theme: string

    predicate Valid()
      reads this
    {
      theme in ValidThemes
    }

    constructor (hasWindow: bool, saved: Option<string>, initialTheme: string)
      requires initialTheme in ValidThemes
      ensures Valid()
      ensures theme == InitialTheme(hasWindow, saved, initialTheme)
    {
      theme := InitialTheme(hasWindow, saved, initialTheme);
    }

    method SetTheme(t: string)
      requires t in ValidThemes
      modifies this
      ensures Valid() && theme == t
    {
      theme := t;
    }

    method ToggleTheme()
      modifies this
      ensures Valid()
      ensures theme == Toggle(old(theme))
    {
      if theme == LightSlate {
        theme := DarkSlate;
      } else if theme == DarkSlate {
        theme := LightGreen;
      } else if theme == LightGreen {
        theme := DarkGreen;
      } else {
        theme := LightSlate;
      }
    }
  }
}
