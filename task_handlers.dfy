/**
 * `normalizeFilename`, the one computation shared by the three Cypress
 * tasks (`maybeVisualTestExists`, `mvToVisualTestFolder`,
 * `rmCurrentVisualState`): the image name is trimmed, every `/` becomes
 * `_`, and `.png` is appended.
 */
module TaskHandlers {
  import opened JsText

  const Extension := ".png"

  /** `s.replace(/\//g, '_')`: each slash replaced by an underscore, everything else kept in place. */
  function ReplaceSlashes(s: string): (r: string)
    ensures |r| == |s|
    ensures forall i :: 0 <= i < |s| ==> r[i] == (if s[i] == '/' then '_' else s[i])
  {
    seq(|s|, i requires 0 <= i < |s| => if s[i] == '/' then '_' else s[i])
  }

  /** The name without its extension: trimmed, slashes replaced. */
  function NormalizeStem(filename: string): string
  {
    ReplaceSlashes(Trim(filename))
  }

  /** `normalizeFilename`. */
  function NormalizeFilename(filename: string): string
  {
    NormalizeStem(filename) + Extension
  }

  /**
   * The file name is the trimmed name, character for character, with `_`
   * for `/`, followed by `.png`; so it contains no slash before the
   * extension and stays inside the folder it is joined to.
   */
  lemma NormalizeShape(filename: string)
    ensures var r, t := NormalizeFilename(filename), Trim(filename);
      && |r| == |t| + |Extension|
      && r[|t|..] == Extension
      && (forall i :: 0 <= i < |t| ==> r[i] == (if t[i] == '/' then '_' else t[i]))
      && (forall i :: 0 <= i < |r| ==> r[i] != '/')
  {
  }

  /** The part before `.png` neither starts nor ends with white space. */
  lemma StemTrimmed(filename: string)
    ensures var stem := NormalizeStem(filename);
      stem != [] ==> !IsWhiteSpace(stem[0]) && !IsWhiteSpace(stem[|stem| - 1])
  {
    TrimShape(filename);
  }

  /** Trimming and replacing slashes leaves a stem it has already produced as it is. */
  lemma StemIdempotent(filename: string)
    ensures NormalizeStem(NormalizeStem(filename)) == NormalizeStem(filename)
  {
    var stem := NormalizeStem(filename);
    StemTrimmed(filename);
    TrimClean(stem);
    assert ReplaceSlashes(stem) == stem;
  }

  /** The whole function is not idempotent: a normalized name gets a second `.png`. */
  lemma NormalizeTwiceAppendsExtension(filename: string)
    ensures NormalizeFilename(NormalizeFilename(filename)) == NormalizeFilename(filename) + Extension
  {
    var r := NormalizeFilename(filename);
    StemTrimmed(filename);
    TrimClean(r);
    assert ReplaceSlashes(r) == r;
  }

  /**
   * White space around a name does not change the file it maps to: the
   * three tasks find, move and remove the same file for `name`, `' name'`
   * and `'name\n'`.
   */
  lemma SurroundingSpaceIgnored(before: string, filename: string, after: string)
    requires AllWhiteSpace(before)
    requires AllWhiteSpace(after)
    ensures NormalizeFilename(before + filename + after) == NormalizeFilename(filename)
  {
    assert before + filename + after == before + (filename + after);
    TrimStartSkipsSpace(before, filename + after);
    TrimStartBeforeSpace(filename, after);
    if TrimStart(filename) != [] {
      TrimEndSkipsSpace(TrimStart(filename), after);
    }
  }

  /**
   * Distinct names can share a file: a slash and an underscore in the same
   * place give the same file name.
   */
  lemma SlashAndUnderscoreCollide()
    ensures NormalizeFilename("home/button") == NormalizeFilename("home_button") == "home_button.png"
  {
    var a, b := "home/button", "home_button";
    TrimClean(a);
    TrimClean(b);
    assert ReplaceSlashes(a) == b;
    assert ReplaceSlashes(b) == b;
  }
}
