/** The process-wide dark-mode flag of the singleton example
    (`ThemeConfig` object), as an explicit immutable value. */
module ThemeConfig {

  datatype Config = Config(darkModeEnabled: bool)

  /** The object's initial state: dark mode off. */
  function Initial(): (c: Config)
    ensures !IsDarkModeEnabled(c)
  {
    Config(false)
  }

  /** Reads the flag; reading is a pure query and changes nothing. */
  function IsDarkModeEnabled(c: Config): (b: bool)
    ensures b <==> c == Config(true)
  {
    c.darkModeEnabled
  }

  /** Flips the flag. */
  function ToggleDarkMode(c: Config): (r: Config)
    ensures IsDarkModeEnabled(r) != IsDarkModeEnabled(c)
  {
    Config(!c.darkModeEnabled)
  }

  /** The state after `n` successive toggles. */
  function ToggleTimes(c: Config, n: nat): Config
    decreases n
  {
    if n == 0 then c else ToggleDarkMode(ToggleTimes(c, n - 1))
  }

  /** Toggling is an involution: two toggles restore the flag. */
  lemma ToggleTwiceRestores(c: Config)
    ensures ToggleDarkMode(ToggleDarkMode(c)) == c
  {
  }

  /** After `n` toggles from the initial state, dark mode is on exactly
      when `n` is odd. */
  lemma {:induction false} ToggleParity(n: nat)
    ensures IsDarkModeEnabled(ToggleTimes(Initial(), n)) <==> n % 2 == 1
    decreases n
  {
    if n > 0 {
      ToggleParity(n - 1);
    }
  }
}
