/** The page header (`Header`): the language switch, the theme switch and the login/logout
    controls. Everything here is computed from the i18n language, the theme, the mounted flag
    and the login flag; `i18n.changeLanguage` and `setTheme` are the effects, modelled by the
    value they receive. */
module Header {
  import opened Wrappers
  import Text

  /** The languages the switch knows. */
  predicate Supported(lang: string) {
    lang == "en" || lang == "es"
  }

  /** `i18n.language || 'en'`: an undefined or empty language counts as English. */
  function RawLanguage(language: Option<string>): (r: string)
    ensures r != ""
    ensures language.Some? && language.value != "" ==> r == language.value
  {
    if language.None? || language.value == "" then "en" else language.value
  }

  /** `currentLang`: the part of the language before the first `-`, kept when it is a known
      language and replaced by `en` otherwise. */
  function CurrentLang(language: Option<string>): (r: string)
    ensures Supported(r)
  {
    var base := Text.Split(RawLanguage(language), "-")[0];
    if Supported(base) then base else "en"
  }

  /** `currentLang` is the language's primary subtag `a` (the text before its first `-`, or
      the whole text when it has none) when that is `en` or `es`, and `en` otherwise. */
  lemma CurrentLangCharacterized(language: string, a: string)
    requires '-' !in a
    requires language == a || Text.StartsWith(language, a + "-")
    ensures CurrentLang(Some(language)) == if Supported(a) then a else "en"
  {
    if language == "" {
      Text.SplitNoChar("en", '-');
    } else if language == a {
      Text.SplitNoChar(a, '-');
    } else {
      var b := language[|a| + 1..];
      assert language == a + ['-'] + b;
      Text.SplitFirstChar(a, '-', b);
    }
  }

  /** With no language at all the switch shows English. */
  lemma UndefinedLanguageIsEnglish()
    ensures CurrentLang(None) == "en"
  {
    Text.SplitNoChar("en", '-');
  }

  /** Normalising a normalised language changes nothing. */
  lemma CurrentLangIdempotent(language: Option<string>)
    ensures CurrentLang(Some(CurrentLang(language))) == CurrentLang(language)
  {
    var c := CurrentLang(language);
    CurrentLangCharacterized(c, c);
  }

  /** `toggleLang`: the language passed to `i18n.changeLanguage`. */
  function ToggleLang(currentLang: string): (r: string)
    ensures Supported(r)
    ensures Supported(currentLang) ==> r != currentLang
  {
    if currentLang == "en" then "es" else "en"
  }

  /** `toggleTheme`: the theme passed to `setTheme`; `dark` only from `light`. */
  function ToggleTheme(theme: Option<string>): (r: string)
    ensures r == "dark" <==> theme == Some("light")
    ensures r == "light" <==> theme != Some("light")
  {
    if theme == Some("light") then "dark" else "light"
  }

  datatype Flag = US | ES

  /** The theme button: its icon and the translation key of its label. */
  datatype ThemeButton = ThemeButton(moonIcon: bool, ariaKey: string)

  datatype View = View(
    flag: Flag,
    flagTitle: string,
    langLabel: string,
    themeButton: Option<ThemeButton>,
    logoutShown: bool,
    loginShown: bool,
    signupShown: bool)

  /** What the header renders. */
  function Render(language: Option<string>, theme: Option<string>, mounted: bool, isLoggedIn: bool): (r: View)
    ensures r.flag == US <==> CurrentLang(language) == "en"
    ensures r.flagTitle == (if r.flag == US then "English" else "Español")
    ensures r.langLabel == Text.Upper(CurrentLang(language))
    ensures r.themeButton.Some? <==> mounted
    ensures r.logoutShown <==> isLoggedIn
    ensures r.loginShown <==> !isLoggedIn
    ensures r.signupShown <==> !isLoggedIn
  {
    var lang := CurrentLang(language);
    var flag := if lang == "en" then US else ES;
    View(
      flag,
      if flag == US then "English" else "Español",
      Text.Upper(lang),
      if mounted then
        Some(ThemeButton(theme == Some("light"), if theme == Some("light") then "switch_to_dark" else "switch_to_light"))
      else None,
      isLoggedIn,
      !isLoggedIn,
      !isLoggedIn)
  }

  /** The label is `EN` or `ES`, matching the flag. */
  lemma LabelMatchesFlag(language: Option<string>, theme: Option<string>, mounted: bool, isLoggedIn: bool)
    ensures Render(language, theme, mounted, isLoggedIn).langLabel ==
              if Render(language, theme, mounted, isLoggedIn).flag == US then "EN" else "ES"
  {
    UpperOfSupported(CurrentLang(language));
  }

  /** The upper-cased name of a known language. */
  lemma UpperOfSupported(lang: string)
    requires Supported(lang)
    ensures Text.Upper(lang) == if lang == "en" then "EN" else "ES"
  {
    if lang == "en" {
      assert Text.Upper("n") == "N";
    } else {
      assert Text.Upper("s") == "S";
    }
  }

  /** The theme button announces the theme a click switches to, and shows the moon exactly
      when that theme is dark. */
  lemma ThemeButtonNamesTarget(language: Option<string>, theme: Option<string>, isLoggedIn: bool)
    ensures Render(language, theme, true, isLoggedIn).themeButton ==
              Some(ThemeButton(ToggleTheme(theme) == "dark", "switch_to_" + ToggleTheme(theme)))
  {
    assert "switch_to_" + "dark" == "switch_to_dark";
    assert "switch_to_" + "light" == "switch_to_light";
  }
}
