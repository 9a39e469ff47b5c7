/**
 * The reaction palette the poll posts under every card, and the parser that
 * turns a reaction's emoji name back into a score (bot.py, lines 16-24).
 */
module Reactions {
  import opened Wrappers

  /** U+20E3 COMBINING ENCLOSING KEYCAP, appended to a digit to make a keycap emoji. */
  const Keycap: char := '\U{20E3}'

  /** The keycaps for 1..9 followed by the zero keycap, in that order. */
  const Palette: seq<string> := [
    ['1', Keycap], ['2', Keycap], ['3', Keycap], ['4', Keycap], ['5', Keycap],
    ['6', Keycap], ['7', Keycap], ['8', Keycap], ['9', Keycap], ['0', Keycap]
  ]

  /**
   * The score a reaction stands for: None for anything outside the palette,
   * otherwise its leading digit, with the zero keycap meaning ten.
   */
  function ScoreFromReactionName(name: string): (r: Option<int>)
    ensures r.None? <==> name !in Palette
    ensures r.Some? ==> 1 <= r.value <= 10 && name == Palette[r.value - 1]
  {
    if name !in Palette then None
    else
      var s := name[0] as int - '0' as int;
      if s == 0 then Some(10) else Some(s)
  }

  /** Every palette entry parses back to its own position plus one. */
  lemma PaletteRoundTrip(i: int)
    requires 0 <= i < |Palette|
    ensures ScoreFromReactionName(Palette[i]) == Some(i + 1)
  {
    // the palette's entries are pairwise distinct, so the one found is Palette[i]
    var r := ScoreFromReactionName(Palette[i]);
    assert r.Some?;
    assert Palette[r.value - 1] == Palette[i];
    assert Palette[r.value - 1][0] == Palette[i][0];
  }
}
