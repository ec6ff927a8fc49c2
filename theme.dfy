/**
 * The theme state of `ThemeProvider`: a chosen mode, which may defer to the
 * device's colour scheme, and the scheme that results from it.
 */
module ThemeContext {
  import opened Wrappers

  datatype ThemeMode = LightMode | DarkMode | SystemMode

  datatype ColorScheme = Light | Dark

  /** The scheme an explicit mode asks for. */
  function SchemeOf(mode: ThemeMode): ColorScheme
    requires mode != SystemMode
  {
    if mode == DarkMode then Dark else Light
  }

  /**
   * `colorScheme`: an explicit mode wins; in `system` mode the device's scheme
   * is used, and light when the device reports none.
   */
  function ResolveScheme(mode: ThemeMode, system: Option<ColorScheme>): (r: ColorScheme)
    ensures mode == DarkMode ==> r == Dark
    ensures mode == LightMode ==> r == Light
    ensures mode == SystemMode ==> (r == Dark <==> system == Some(Dark))
  {
    if mode == SystemMode then system.GetOr(Light) else SchemeOf(mode)
  }

  /**
   * `toggleTheme`'s update: from `system` mode it picks the opposite of the
   * device's scheme, otherwise the opposite of the current mode.
   */
  function Toggled(mode: ThemeMode, system: Option<ColorScheme>): (r: ThemeMode)
    ensures r != SystemMode
  {
    if mode == SystemMode then
      if system == Some(Dark) then LightMode else DarkMode
    else if mode == DarkMode then LightMode
    else DarkMode
  }

  /** Toggling always flips what the screen shows, whatever the device reports. */
  lemma ToggleFlipsScheme(mode: ThemeMode, system: Option<ColorScheme>)
    ensures ResolveScheme(Toggled(mode, system), system) != ResolveScheme(mode, system)
  {
  }

  /** Toggling twice returns to an explicit mode, and leaves `system` mode for good. */
  lemma ToggleTwice(mode: ThemeMode, system: Option<ColorScheme>)
    ensures mode != SystemMode ==> Toggled(Toggled(mode, system), system) == mode
    ensures Toggled(Toggled(mode, system), system) != SystemMode
  {
  }

  /** Once the mode is explicit, the device's scheme no longer matters. */
  lemma ExplicitModeIgnoresSystem(mode: ThemeMode, s1: Option<ColorScheme>, s2: Option<ColorScheme>)
    requires mode != SystemMode
    ensures ResolveScheme(mode, s1) == ResolveScheme(mode, s2)
    ensures Toggled(mode, s1) == Toggled(mode, s2)
  {
  }

  class ThemeState {
    var themeMode: ThemeMode
    /** What `useColorScheme()` reports; outside the app's control. */
    var systemScheme: Option<ColorScheme>

    /** The provider starts in `system` mode. */
    constructor (system: Option<ColorScheme>)
      ensures themeMode == SystemMode && systemScheme == system
    {
      themeMode := SystemMode;
      systemScheme := system;
    }

    /** `colorScheme`: dark exactly when chosen, or deferred to a device that reports dark. */
    function ColorSchemeNow(): (r: ColorScheme)
      reads this
      ensures r == Dark <==> themeMode == DarkMode || (themeMode == SystemMode && systemScheme == Some(Dark))
    {
      ResolveScheme(themeMode, systemScheme)
    }

    /** `isDark`: the resolved scheme is dark. */
    predicate IsDark(): (r: bool)
      reads this
      ensures r <==> themeMode == DarkMode || (themeMode == SystemMode && systemScheme == Some(Dark))
    {
      ColorSchemeNow() == Dark
    }

    method SetThemeMode(mode: ThemeMode)
      modifies this
      ensures themeMode == mode && systemScheme == old(systemScheme)
    {
      themeMode := mode;
    }

    /** The device changes its scheme. */
    method SetSystemScheme(system: Option<ColorScheme>)
      modifies this
      ensures systemScheme == system && themeMode == old(themeMode)
    {
      systemScheme := system;
    }

    method ToggleTheme()
      modifies this
      ensures themeMode == Toggled(old(themeMode), systemScheme)
      ensures systemScheme == old(systemScheme)
      ensures themeMode != SystemMode
      ensures IsDark() == !old(IsDark())
    {
      themeMode := Toggled(themeMode, systemScheme);
      ToggleFlipsScheme(old(themeMode), systemScheme);
    }
  }
}
