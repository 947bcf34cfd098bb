/** The two closed theme palettes and theme resolution with fallback. */
module Colors {

  /** Foreground palette: token to CSS colour. */
  const ColorSchemes: map<string, string> := map[
    "red"       := "rgb(243, 69, 69)",
    "blue"      := "rgb(59, 130, 246)",
    "lightBlue" := "rgb(14, 165, 233)",
    "green"     := "rgb(34, 197, 94)",
    "yellow"    := "rgb(234, 179, 8)",
    "orange"    := "rgb(249, 115, 22)",
    "purple"    := "rgb(168, 85, 247)",
    "pink"      := "rgb(236, 72, 153)",
    "white"     := "rgb(255, 255, 255)",
    "black"     := "rgb(0, 0, 0)"
  ]

  /** Background palette: token to CSS colour. */
  const BackgroundSchemes: map<string, string> := map[
    "black"   := "#0A0A0A",
    "neutral" := "#171717",
    "white"   := "#FFFFFF"
  ]

  const FallbackColor := "red"
  const FallbackBackground := "black"

  /** Go's `m[k]` on a map of strings: the zero value "" when the key is absent. */
  function Lookup(table: map<string, string>, token: string): string
  {
    if token in table then table[token] else ""
  }

  /** The palette's colour for a known token, otherwise the red scheme. */
  function ResolveColor(color: string): (r: string)
    ensures r in ColorSchemes.Values
    ensures color in ColorSchemes ==> r == ColorSchemes[color]
    ensures color !in ColorSchemes ==> r == ColorSchemes[FallbackColor]
  {
    var c := Lookup(ColorSchemes, color);
    if c == "" then Lookup(ColorSchemes, FallbackColor) else c
  }

  /** The palette's background for a known token, otherwise the black scheme. */
  function ResolveBackground(background: string): (r: string)
    ensures r in BackgroundSchemes.Values
    ensures background in BackgroundSchemes ==> r == BackgroundSchemes[background]
    ensures background !in BackgroundSchemes ==> r == BackgroundSchemes[FallbackBackground]
  {
    var b := Lookup(BackgroundSchemes, background);
    if b == "" then Lookup(BackgroundSchemes, FallbackBackground) else b
  }

  /** The fill behind each bar: light grey exactly on the raw token "white". */
  function BarBackground(background: string): (r: string)
    ensures r == "#E5E5E5" <==> background == "white"
    ensures r == "#171717" <==> background != "white"
  {
    if background == "white" then "#E5E5E5" else "#171717"
  }

  /** The foreground palette has exactly ten tokens. */
  lemma ColorTokens()
    ensures ColorSchemes.Keys ==
      {"red", "blue", "lightBlue", "green", "yellow", "orange", "purple", "pink", "white", "black"}
  {
  }

  /** The background palette has exactly three tokens. */
  lemma BackgroundTokens()
    ensures BackgroundSchemes.Keys == {"black", "neutral", "white"}
    ensures |BackgroundSchemes| == 3
  {
  }

  /**
   * No stored colour is empty, so a caller's `== ""` test after a lookup
   * is true exactly when the token is missing from the palette.
   */
  lemma EmptyLookupMeansMissing(token: string)
    ensures Lookup(ColorSchemes, token) == "" <==> token !in ColorSchemes
    ensures Lookup(BackgroundSchemes, token) == "" <==> token !in BackgroundSchemes
  {
  }

  /** Both fallback targets exist and have the listed values. */
  lemma FallbacksExist()
    ensures ColorSchemes[FallbackColor] == "rgb(243, 69, 69)"
    ensures BackgroundSchemes[FallbackBackground] == "#0A0A0A"
    ensures ResolveColor("") == "rgb(243, 69, 69)"
    ensures ResolveBackground("") == "#0A0A0A"
  {
  }
}
