/**
 * The diff engine: the highlighted diff pixel, the single pass over two RGBA
 * buffers that fills a third one and counts differing pixels (freezing the
 * count once the aggregate threshold is reached), and the choice of wording
 * of the result message.
 *
 * A buffer is the flat byte array a 2D canvas hands out: row-major, four
 * bytes (R, G, B, A) per pixel.
 */
module DiffEngine {
  import opened JsNumbers
  import opened ColorModel

  datatype Rgba = Rgba(r: Byte, g: Byte, b: Byte, a: Byte)

  /** The aggregate numbers `calcDiffWithCanvas` returns. */
  datatype DiffResult = DiffResult(thresholdReached: bool, totalImgPixels: nat, qtdDiffPixels: nat)

  /** The two counters of the pass. */
  datatype ScanState = ScanState(diffPixelsCount: nat, thresholdReached: bool)

  /**
   * `highlightedDiffPixel`: a similar pair gives the base pixel tinted blue at
   * quarter opacity, a differing pair the current pixel tinted red, opaque.
   */
  function HighlightedDiffPixel(pixel1: Rgb, pixel2: Rgb, threshold: real): Rgba
  {
    if ArePixelsEqual(pixel1, pixel2, threshold) then Rgba(pixel1.r, pixel1.g, 255, 64)
    else Rgba(255, pixel2.g, pixel2.b, 255)
  }

  /**
   * The tint tells the two cases apart: alpha 64 exactly for similar pairs,
   * alpha 255 exactly for differing ones; a match keeps the base pixel's red
   * and green, a mismatch the current pixel's green and blue.
   */
  lemma HighlightTints(pixel1: Rgb, pixel2: Rgb, threshold: real)
    ensures var q := HighlightedDiffPixel(pixel1, pixel2, threshold);
      && (q.a == 64 <==> ArePixelsEqual(pixel1, pixel2, threshold))
      && (q.a == 255 <==> !ArePixelsEqual(pixel1, pixel2, threshold))
      && (q.a == 64 ==> q.r == pixel1.r && q.g == pixel1.g && q.b == 255)
      && (q.a == 255 ==> q.r == 255 && q.g == pixel2.g && q.b == pixel2.b)
  {
  }

  /** The wording `diffResultMessage` picks: the "at least" prefix and the comparison phrase. */
  function DiffResultWording(diffPixelsCount: nat, totalPixels: nat, threshold: real): (words: (string, string))
  {
    if RatioAtLeast(diffPixelsCount, totalPixels, threshold) then ("at least ", "bigger than or equal")
    else ("", "smaller than")
  }

  // ---------------------------------------------------------------------
  // Buffers and the specification of the pass
  // ---------------------------------------------------------------------

  /** The RGB triple of pixel `k`; its alpha byte is not read. */
  function PixelAt(buf: seq<Byte>, k: nat): Rgb
    requires 4 * k + 3 < |buf|
  {
    Rgb(buf[4 * k], buf[4 * k + 1], buf[4 * k + 2])
  }

  /** The verdicts on the first `n` pixel pairs: entry `k` is true when pair `k` differs. */
  function Differs(base: seq<Byte>, current: seq<Byte>, pxDistThreshold: real, n: nat): (flags: seq<bool>)
    requires 4 * n <= |base| && 4 * n <= |current|
    ensures |flags| == n
  {
    if n == 0 then []
    else Differs(base, current, pxDistThreshold, n - 1) + [!ArePixelsEqual(PixelAt(base, n - 1), PixelAt(current, n - 1), pxDistThreshold)]
  }

  /** Entry `k` of the verdicts is the comparison of pixel pair `k`. */
  lemma {:induction false} DiffersAt(base: seq<Byte>, current: seq<Byte>, pxDistThreshold: real, n: nat, k: nat)
    requires 4 * n <= |base| && 4 * n <= |current| && k < n
    ensures Differs(base, current, pxDistThreshold, n)[k] == !ArePixelsEqual(PixelAt(base, k), PixelAt(current, k), pxDistThreshold)
  {
    if k < n - 1 {
      DiffersAt(base, current, pxDistThreshold, n - 1, k);
    }
  }

  /** `HighlightedDiffPixel` given the verdict on the pair instead of the threshold. */
  function Tint(differs: bool, pixel1: Rgb, pixel2: Rgb): Rgba
  {
    if differs then Rgba(255, pixel2.g, pixel2.b, 255) else Rgba(pixel1.r, pixel1.g, 255, 64)
  }

  /** The first `n` pixels of the diff buffer: four bytes per pixel, in order. */
  function DiffPrefix(base: seq<Byte>, current: seq<Byte>, flags: seq<bool>, n: nat): (d: seq<Byte>)
    requires 4 * n <= |base| && 4 * n <= |current| && n <= |flags|
    ensures |d| == 4 * n
  {
    if n == 0 then []
    else
      var q := Tint(flags[n - 1], PixelAt(base, n - 1), PixelAt(current, n - 1));
      DiffPrefix(base, current, flags, n - 1) + [q.r, q.g, q.b, q.a]
  }

  /** The diff buffer a pass over two buffers of `totalPixels` pixels leaves behind. */
  function DiffImage(base: seq<Byte>, current: seq<Byte>, pxDistThreshold: real, totalPixels: nat): seq<Byte>
    requires |base| == 4 * totalPixels && |current| == |base|
  {
    DiffPrefix(base, current, Differs(base, current, pxDistThreshold, totalPixels), totalPixels)
  }

  /** Writing the tint of pixel `k` right after the first `k` pixels extends the prefix by that pixel. */
  lemma DiffPrefixExtend(d: seq<Byte>, base: seq<Byte>, current: seq<Byte>, flags: seq<bool>, k: nat, q: Rgba)
    requires 4 * k + 4 <= |base| && 4 * k + 4 <= |current| && k < |flags| && 4 * k + 4 <= |d|
    requires d[..4 * k] == DiffPrefix(base, current, flags, k)
    requires q == Tint(flags[k], PixelAt(base, k), PixelAt(current, k))
    requires d[4 * k] == q.r && d[4 * k + 1] == q.g && d[4 * k + 2] == q.b && d[4 * k + 3] == q.a
    ensures d[..4 * k + 4] == DiffPrefix(base, current, flags, k + 1)
  {
    assert d[..4 * k + 4] == d[..4 * k] + [q.r, q.g, q.b, q.a];
  }

  /** Pixel `j` of the diff prefix is the tint of pair `j`, whatever the length of the prefix. */
  lemma {:induction false} DiffPrefixPixel(base: seq<Byte>, current: seq<Byte>, flags: seq<bool>, n: nat, j: nat)
    requires 4 * n <= |base| && 4 * n <= |current| && n <= |flags| && j < n
    ensures var d, q := DiffPrefix(base, current, flags, n), Tint(flags[j], PixelAt(base, j), PixelAt(current, j));
      d[4 * j] == q.r && d[4 * j + 1] == q.g && d[4 * j + 2] == q.b && d[4 * j + 3] == q.a
  {
    if j < n - 1 {
      DiffPrefixPixel(base, current, flags, n - 1, j);
    }
  }

  /**
   * Every pixel of the diff image is `highlightedDiffPixel` of the base and
   * current pixels at the same position: blue-tinted base pixel at alpha 64
   * for a similar pair, red-tinted current pixel at alpha 255 otherwise.
   */
  lemma DiffImageHighlights(base: seq<Byte>, current: seq<Byte>, pxDistThreshold: real, totalPixels: nat, j: nat)
    requires |base| == 4 * totalPixels && |current| == |base| && j < totalPixels
    ensures var d, q := DiffImage(base, current, pxDistThreshold, totalPixels),
                        HighlightedDiffPixel(PixelAt(base, j), PixelAt(current, j), pxDistThreshold);
      d[4 * j] == q.r && d[4 * j + 1] == q.g && d[4 * j + 2] == q.b && d[4 * j + 3] == q.a
  {
    DiffPrefixPixel(base, current, Differs(base, current, pxDistThreshold, totalPixels), totalPixels, j);
    DiffersAt(base, current, pxDistThreshold, totalPixels, j);
  }

  /** How many of the first `n` verdicts say "differs". */
  function CountDiffering(flags: seq<bool>, n: nat): (c: nat)
    requires n <= |flags|
    ensures c <= n
  {
    if n == 0 then 0 else CountDiffering(flags, n - 1) + (if flags[n - 1] then 1 else 0)
  }

  /** How many of the first `n` pixels of a buffer are opaque (alpha 255). */
  function CountOpaque(d: seq<Byte>, n: nat): nat
    requires 4 * n <= |d|
  {
    if n == 0 then 0 else CountOpaque(d, n - 1) + (if d[4 * (n - 1) + 3] == 255 then 1 else 0)
  }

  lemma {:induction false} CountOpaquePrefix(d: seq<Byte>, e: seq<Byte>, n: nat)
    requires 4 * n <= |d| && 4 * n <= |e| && d[..4 * n] == e[..4 * n]
    ensures CountOpaque(d, n) == CountOpaque(e, n)
  {
    if n > 0 {
      assert d[4 * (n - 1) + 3] == d[..4 * n][4 * (n - 1) + 3];
      assert e[4 * (n - 1) + 3] == e[..4 * n][4 * (n - 1) + 3];
      assert d[..4 * (n - 1)] == d[..4 * n][..4 * (n - 1)];
      assert e[..4 * (n - 1)] == e[..4 * n][..4 * (n - 1)];
      CountOpaquePrefix(d, e, n - 1);
    }
  }

  /** The opaque (red-tinted) pixels of the diff buffer are exactly the differing pairs. */
  lemma {:induction false} OpaqueCountsDiffering(base: seq<Byte>, current: seq<Byte>, flags: seq<bool>, n: nat)
    requires 4 * n <= |base| && 4 * n <= |current| && n <= |flags|
    ensures CountOpaque(DiffPrefix(base, current, flags, n), n) == CountDiffering(flags, n)
  {
    if n > 0 {
      var d := DiffPrefix(base, current, flags, n);
      var d' := DiffPrefix(base, current, flags, n - 1);
      assert d[..4 * (n - 1)] == d';
      assert d'[..4 * (n - 1)] == d';
      CountOpaquePrefix(d, d', n - 1);
      OpaqueCountsDiffering(base, current, flags, n - 1);
      DiffPrefixPixel(base, current, flags, n, n - 1);
    }
  }

  // ---------------------------------------------------------------------
  // The counters of the pass
  // ---------------------------------------------------------------------

  /**
   * One iteration on the counters (src/core/naive.js:56 and 61-63): a differing pixel is
   * counted unless the flag is already set, then the flag is set once the
   * ratio reaches the threshold.
   */
  function CountPixel(s: ScanState, differs: bool, totalPixels: nat, qtdDiffThreshold: real): ScanState
    requires totalPixels > 0
  {
    var count := if differs && !s.thresholdReached then s.diffPixelsCount + 1 else s.diffPixelsCount;
    ScanState(count, s.thresholdReached || count as real / totalPixels as real >= qtdDiffThreshold)
  }

  /** The counters after the first `n` verdicts, one iteration at a time. */
  function ScanFold(flags: seq<bool>, totalPixels: nat, n: nat, qtdDiffThreshold: real): ScanState
    requires n <= |flags| <= totalPixels
  {
    if n == 0 then ScanState(0, false)
    else CountPixel(ScanFold(flags, totalPixels, n - 1, qtdDiffThreshold), flags[n - 1], totalPixels, qtdDiffThreshold)
  }

  /** What `calcDiffWithCanvas` returns for two buffers of `totalPixels` pixels. */
  function PassResult(base: seq<Byte>, current: seq<Byte>, totalPixels: nat,
                      qtdDiffThreshold: real, pxDistThreshold: real): DiffResult
    requires |base| == 4 * totalPixels && |current| == |base|
  {
    var s := ScanFold(Differs(base, current, pxDistThreshold, totalPixels), totalPixels, totalPixels, qtdDiffThreshold);
    DiffResult(s.thresholdReached, totalPixels, s.diffPixelsCount)
  }

  /** Once the flag is set it stays set and the count stops growing (src/core/naive.js:56 and 61). */
  lemma {:induction false} FlagFreezesCounters(flags: seq<bool>, totalPixels: nat, m: nat, n: nat, qtdDiffThreshold: real)
    requires m <= n <= |flags| <= totalPixels
    requires ScanFold(flags, totalPixels, m, qtdDiffThreshold).thresholdReached
    ensures ScanFold(flags, totalPixels, n, qtdDiffThreshold) == ScanFold(flags, totalPixels, m, qtdDiffThreshold)
  {
    if m < n {
      FlagFreezesCounters(flags, totalPixels, m, n - 1, qtdDiffThreshold);
    }
  }

  /** The count at which a positive aggregate threshold is reached: ceil(threshold * total). */
  function FreezeLimit(qtdDiffThreshold: real, totalPixels: nat): nat
    requires qtdDiffThreshold > 0.0
  {
    assert qtdDiffThreshold * totalPixels as real >= 0.0;
    Ceil(qtdDiffThreshold * totalPixels as real)
  }

  /**
   * The counters after `n` pixels in closed form: for a positive threshold,
   * the number of differing pixels capped at the freeze limit; for a
   * threshold of zero or less the flag is set at the first pixel, so only
   * that pixel can be counted.
   */
  function ScanAfter(flags: seq<bool>, totalPixels: nat, n: nat, qtdDiffThreshold: real): ScanState
    requires n <= |flags|
  {
    var count :=
      if qtdDiffThreshold > 0.0 then Min(CountDiffering(flags, n), FreezeLimit(qtdDiffThreshold, totalPixels))
      else CountDiffering(flags, Min(n, 1));
    ScanState(count, n > 0 && RatioAtLeast(count, totalPixels, qtdDiffThreshold))
  }

  lemma ProductSign(q: real, n: nat)
    ensures q > 0.0 ==> q * n as real >= 0.0
    ensures q <= 0.0 ==> q * n as real <= 0.0
  {
  }

  /** The closed form obeys one iteration. */
  lemma {:induction false} ScanAdvance(flags: seq<bool>, totalPixels: nat, n: nat, qtdDiffThreshold: real)
    requires |flags| == totalPixels && n < totalPixels
    ensures ScanAfter(flags, totalPixels, n + 1, qtdDiffThreshold)
         == CountPixel(ScanAfter(flags, totalPixels, n, qtdDiffThreshold), flags[n], totalPixels, qtdDiffThreshold)
  {
    var q := qtdDiffThreshold;
    var s := ScanAfter(flags, totalPixels, n, q);
    var s' := ScanAfter(flags, totalPixels, n + 1, q);
    var count := if flags[n] && !s.thresholdReached then s.diffPixelsCount + 1 else s.diffPixelsCount;
    var bound := Ceil(q * totalPixels as real);
    ProductSign(q, totalPixels);
    RatioAtLeastIffBound(s.diffPixelsCount, totalPixels, q);
    RatioAtLeastIffBound(count, totalPixels, q);
    RatioAtLeastIffBound(s'.diffPixelsCount, totalPixels, q);
    assert RatioAtLeast(count, totalPixels, q) == (count as real / totalPixels as real >= q);
    if q > 0.0 {
      assert bound >= 1;
      assert s.thresholdReached <==> s.diffPixelsCount >= bound;
    }
  }

  /** The loop's counters agree with the closed form after every number of pixels. */
  lemma {:induction false} ScanFoldClosedForm(flags: seq<bool>, totalPixels: nat, n: nat, qtdDiffThreshold: real)
    requires n <= |flags| == totalPixels
    ensures ScanFold(flags, totalPixels, n, qtdDiffThreshold) == ScanAfter(flags, totalPixels, n, qtdDiffThreshold)
  {
    if n > 0 {
      ScanFoldClosedForm(flags, totalPixels, n - 1, qtdDiffThreshold);
      ScanAdvance(flags, totalPixels, n - 1, qtdDiffThreshold);
    }
  }

  /**
   * For a positive aggregate threshold the pass reports the threshold
   * reached exactly when the true ratio of differing pixels reaches it; the
   * count is exact while the flag is unset and stops at ceil(threshold *
   * total) once it is set.
   */
  lemma PassPositiveThreshold(base: seq<Byte>, current: seq<Byte>, totalPixels: nat,
                              qtdDiffThreshold: real, pxDistThreshold: real)
    requires |base| == 4 * totalPixels && |current| == |base| && qtdDiffThreshold > 0.0
    ensures var r, c := PassResult(base, current, totalPixels, qtdDiffThreshold, pxDistThreshold),
                        CountDiffering(Differs(base, current, pxDistThreshold, totalPixels), totalPixels);
      && (r.thresholdReached <==> RatioAtLeast(c, totalPixels, qtdDiffThreshold))
      && r.qtdDiffPixels == (if r.thresholdReached then FreezeLimit(qtdDiffThreshold, totalPixels) else c)
      && r.qtdDiffPixels <= c
  {
    var flags := Differs(base, current, pxDistThreshold, totalPixels);
    ScanFoldClosedForm(flags, totalPixels, totalPixels, qtdDiffThreshold);
    var c := CountDiffering(flags, totalPixels);
    if totalPixels > 0 {
      var limit := FreezeLimit(qtdDiffThreshold, totalPixels);
      RatioAtLeastIffBound(c, totalPixels, qtdDiffThreshold);
      RatioAtLeastIffBound(Min(c, limit), totalPixels, qtdDiffThreshold);
    }
  }

  /** With a threshold of zero or less the counters freeze after the first pixel. */
  lemma ScanNonPositiveThreshold(flags: seq<bool>, totalPixels: nat, qtdDiffThreshold: real)
    requires |flags| == totalPixels > 0 && qtdDiffThreshold <= 0.0
    ensures ScanFold(flags, totalPixels, totalPixels, qtdDiffThreshold) == ScanState(if flags[0] then 1 else 0, true)
  {
    ScanFoldClosedForm(flags, totalPixels, totalPixels, qtdDiffThreshold);
    assert CountDiffering(flags, 1) == (if flags[0] then 1 else 0);
  }

  /**
   * For an aggregate threshold of zero or less the flag is set at the first
   * pixel, so a non-empty pass reports it reached and counts at most the
   * first pixel.
   */
  lemma PassNonPositiveThreshold(base: seq<Byte>, current: seq<Byte>, totalPixels: nat,
                                 qtdDiffThreshold: real, pxDistThreshold: real)
    requires |base| == 4 * totalPixels && |current| == |base| && qtdDiffThreshold <= 0.0 && totalPixels > 0
    ensures var r := PassResult(base, current, totalPixels, qtdDiffThreshold, pxDistThreshold);
      && r.thresholdReached
      && r.qtdDiffPixels == (if ArePixelsEqual(PixelAt(base, 0), PixelAt(current, 0), pxDistThreshold) then 0 else 1)
  {
    ScanNonPositiveThreshold(Differs(base, current, pxDistThreshold, totalPixels), totalPixels, qtdDiffThreshold);
    DiffersAt(base, current, pxDistThreshold, totalPixels, 0);
  }

  /** The count of differing pixels only grows as more pixels are scanned. */
  lemma {:induction false} CountDifferingMonotone(flags: seq<bool>, m: nat, n: nat)
    requires m <= n <= |flags|
    ensures CountDiffering(flags, m) <= CountDiffering(flags, n)
  {
    if m < n {
      CountDifferingMonotone(flags, m, n - 1);
    }
  }

  /**
   * Whatever the thresholds, the reported count never exceeds the number of
   * differing pixels, and so never the number of pixels; the reported total
   * is the number of pixels.
   */
  lemma PassCountBounded(base: seq<Byte>, current: seq<Byte>, totalPixels: nat,
                         qtdDiffThreshold: real, pxDistThreshold: real)
    requires |base| == 4 * totalPixels && |current| == |base|
    ensures var r, c := PassResult(base, current, totalPixels, qtdDiffThreshold, pxDistThreshold),
                        CountDiffering(Differs(base, current, pxDistThreshold, totalPixels), totalPixels);
      r.totalImgPixels == totalPixels && r.qtdDiffPixels <= c <= totalPixels
  {
    var flags := Differs(base, current, pxDistThreshold, totalPixels);
    if qtdDiffThreshold > 0.0 {
      PassPositiveThreshold(base, current, totalPixels, qtdDiffThreshold, pxDistThreshold);
    } else if totalPixels > 0 {
      ScanNonPositiveThreshold(flags, totalPixels, qtdDiffThreshold);
      CountDifferingMonotone(flags, 1, totalPixels);
    }
  }

  /** The wording of the message always agrees with the flag the pass reports. */
  lemma WordingFollowsFlag(base: seq<Byte>, current: seq<Byte>, totalPixels: nat,
                           qtdDiffThreshold: real, pxDistThreshold: real)
    requires |base| == 4 * totalPixels && |current| == |base|
    ensures var r := PassResult(base, current, totalPixels, qtdDiffThreshold, pxDistThreshold);
      DiffResultWording(r.qtdDiffPixels, r.totalImgPixels, qtdDiffThreshold)
      == (if r.thresholdReached then ("at least ", "bigger than or equal") else ("", "smaller than"))
  {
    ScanFoldClosedForm(Differs(base, current, pxDistThreshold, totalPixels), totalPixels, totalPixels, qtdDiffThreshold);
  }

  lemma {:induction false} NoneDiffer(flags: seq<bool>, n: nat)
    requires n <= |flags| && forall k :: 0 <= k < n ==> !flags[k]
    ensures CountDiffering(flags, n) == 0
  {
    if n > 0 {
      NoneDiffer(flags, n - 1);
    }
  }

  /**
   * An image compared with itself under a non-negative pixel threshold and a
   * positive aggregate threshold: no pixel differs, the flag stays unset and
   * every pixel of the diff image is the blue tint at alpha 64.
   */
  lemma IdenticalImagesPass(base: seq<Byte>, totalPixels: nat, qtdDiffThreshold: real, pxDistThreshold: real)
    requires |base| == 4 * totalPixels && qtdDiffThreshold > 0.0 && pxDistThreshold >= 0.0
    ensures PassResult(base, base, totalPixels, qtdDiffThreshold, pxDistThreshold) == DiffResult(false, totalPixels, 0)
    ensures forall j :: 0 <= j < totalPixels ==> DiffImage(base, base, pxDistThreshold, totalPixels)[4 * j + 3] == 64
  {
    var flags := Differs(base, base, pxDistThreshold, totalPixels);
    forall k | 0 <= k < totalPixels
      ensures !flags[k]
    {
      SimilarityReflexive(PixelAt(base, k), pxDistThreshold);
      DiffersAt(base, base, pxDistThreshold, totalPixels, k);
    }
    NoneDiffer(flags, totalPixels);
    PassPositiveThreshold(base, base, totalPixels, qtdDiffThreshold, pxDistThreshold);
    forall j | 0 <= j < totalPixels
      ensures DiffImage(base, base, pxDistThreshold, totalPixels)[4 * j + 3] == 64
    {
      DiffPrefixPixel(base, base, flags, totalPixels, j);
    }
  }

  // ---------------------------------------------------------------------
  // The pass on arrays
  // ---------------------------------------------------------------------

  /**
   * The comparison and the write of one iteration, on pixel `k` (bytes `i`
   * to `i + 3`, src/core/naive.js:54-55 and 58-59): tells whether the two pixels differ
   * and writes their highlight into `img3Array`.
   */
  method HighlightPixel(img1Array: array<Byte>, img2Array: array<Byte>, img3Array: array<Byte>,
                        i: nat, totalPixels: nat, pxDistThreshold: real, ghost k: nat, ghost flags: seq<bool>)
    returns (differs: bool)
    requires img1Array.Length == 4 * totalPixels && i == 4 * k && k < totalPixels
    requires img2Array.Length == img1Array.Length && img3Array.Length == img1Array.Length
    requires img3Array != img1Array && img3Array != img2Array
    requires flags == Differs(img1Array[..], img2Array[..], pxDistThreshold, totalPixels)
    modifies img3Array
    ensures differs == flags[k]
    ensures img3Array[..i] == old(img3Array[..i])
    ensures img3Array[i + 4..] == old(img3Array[i + 4..])
    ensures var q := Tint(differs, PixelAt(img1Array[..], k), PixelAt(img2Array[..], k));
      img3Array[i] == q.r && img3Array[i + 1] == q.g && img3Array[i + 2] == q.b && img3Array[i + 3] == q.a
  {
    var img1Pixel := Rgb(img1Array[i], img1Array[i + 1], img1Array[i + 2]);
    var img2Pixel := Rgb(img2Array[i], img2Array[i + 1], img2Array[i + 2]);
    assert img1Pixel == PixelAt(img1Array[..], k) && img2Pixel == PixelAt(img2Array[..], k);
    DiffersAt(img1Array[..], img2Array[..], pxDistThreshold, totalPixels, k);
    differs := !ArePixelsEqual(img1Pixel, img2Pixel, pxDistThreshold);
    var diff := HighlightedDiffPixel(img1Pixel, img2Pixel, pxDistThreshold);
    img3Array[i] := diff.r;
    img3Array[i + 1] := diff.g;
    img3Array[i + 2] := diff.b;
    img3Array[i + 3] := diff.a;
  }

  /**
   * One iteration of the loop at src/core/naive.js:53-64: the comparison and write, then
   * a difference is counted unless the threshold was already reached, and
   * the flag is set once the ratio of differing pixels reaches
   * `qtdDiffThreshold`.
   */
  method ScanPixel(img1Array: array<Byte>, img2Array: array<Byte>, img3Array: array<Byte>,
                   i: nat, totalPixels: nat, qtdDiffThreshold: real, pxDistThreshold: real,
                   diffPixelsCount: nat, thresholdReached: bool, ghost k: nat, ghost flags: seq<bool>)
    returns (newDiffPixelsCount: nat, newThresholdReached: bool)
    requires img1Array.Length == 4 * totalPixels && i == 4 * k && k < totalPixels
    requires img2Array.Length == img1Array.Length && img3Array.Length == img1Array.Length
    requires img3Array != img1Array && img3Array != img2Array
    requires flags == Differs(img1Array[..], img2Array[..], pxDistThreshold, totalPixels)
    requires img3Array[..i] == DiffPrefix(img1Array[..], img2Array[..], flags, k)
    modifies img3Array
    ensures img3Array[..i + 4] == DiffPrefix(img1Array[..], img2Array[..], flags, k + 1)
    ensures img3Array[i + 4..] == old(img3Array[i + 4..])
    ensures ScanState(newDiffPixelsCount, newThresholdReached)
         == CountPixel(ScanState(diffPixelsCount, thresholdReached), flags[k], totalPixels, qtdDiffThreshold)
  {
    newDiffPixelsCount, newThresholdReached := diffPixelsCount, thresholdReached;
    var differs := HighlightPixel(img1Array, img2Array, img3Array, i, totalPixels, pxDistThreshold, k, flags);
    if differs && !newThresholdReached {
      newDiffPixelsCount := newDiffPixelsCount + 1;
    }
    DiffPrefixExtend(img3Array[..], img1Array[..], img2Array[..], flags, k,
                     Tint(differs, PixelAt(img1Array[..], k), PixelAt(img2Array[..], k)));
    if newDiffPixelsCount as real / totalPixels as real >= qtdDiffThreshold && !newThresholdReached {
      newThresholdReached := true;
    }
  }

  /**
   * The loop of `calcDiffWithCanvas` (src/core/naive.js:51-64): walks the two buffers
   * four bytes at a time, fills `img3Array` in place with the highlighted
   * pixels and counts the differing ones until the ratio reaches
   * `qtdDiffThreshold`.
   */
  method ScanPixels(img1Array: array<Byte>, img2Array: array<Byte>, img3Array: array<Byte>,
                    totalPixels: nat, qtdDiffThreshold: real, pxDistThreshold: real)
    returns (diffPixelsCount: nat, thresholdReached: bool)
    requires img1Array.Length == 4 * totalPixels
    requires img2Array.Length == img1Array.Length && img3Array.Length == img1Array.Length
    requires img3Array != img1Array && img3Array != img2Array
    modifies img3Array
    ensures img3Array[..] == DiffImage(img1Array[..], img2Array[..], pxDistThreshold, totalPixels)
    ensures DiffResult(thresholdReached, totalPixels, diffPixelsCount)
         == PassResult(img1Array[..], img2Array[..], totalPixels, qtdDiffThreshold, pxDistThreshold)
  {
    ghost var flags := Differs(img1Array[..], img2Array[..], pxDistThreshold, totalPixels);
    diffPixelsCount, thresholdReached := 0, false;
    var i, len := 0, img1Array.Length;
    ghost var k := 0;
    while i < len
      invariant i == 4 * k && 0 <= k <= totalPixels
      invariant img3Array[..i] == DiffPrefix(img1Array[..], img2Array[..], flags, k)
      invariant ScanState(diffPixelsCount, thresholdReached) == ScanFold(flags, totalPixels, k, qtdDiffThreshold)
    {
      diffPixelsCount, thresholdReached := ScanPixel(img1Array, img2Array, img3Array, i, totalPixels,
        qtdDiffThreshold, pxDistThreshold, diffPixelsCount, thresholdReached, k, flags);
      i, k := i + 4, k + 1;
    }
    assert img3Array[..] == img3Array[..i];
  }

  /**
   * What `calcDiffWithCanvas` gives back: `getImageData` throws an
   * `IndexSizeError` for a zero width or height, otherwise the pass returns
   * its result and the diff buffer that `putImageData` draws.
   */
  datatype CanvasDiff = IndexSizeError | Computed(result: DiffResult, diffData: seq<Byte>)

  /**
   * `calcDiffWithCanvas` on the pixel data of the two canvases (x = y = 0):
   * copies the data out as `getImageData` does, which throws when the area
   * is empty, allocates the cleared diff buffer, runs the pass and hands
   * back the result and the diff buffer.
   */
  method CalcDiffWithCanvas(baseData: seq<Byte>, currentData: seq<Byte>, width: nat, height: nat,
                            qtdDiffThreshold: real, pxDistThreshold: real)
    returns (pass: CanvasDiff)
    requires |baseData| == 4 * (width * height) && |currentData| == |baseData|
    ensures pass.IndexSizeError? <==> width == 0 || height == 0
    ensures pass.Computed? ==>
      && pass.result == PassResult(baseData, currentData, width * height, qtdDiffThreshold, pxDistThreshold)
      && pass.diffData == DiffImage(baseData, currentData, pxDistThreshold, width * height)
  {
    if width == 0 || height == 0 {
      return IndexSizeError;
    }
    var totalPixels := width * height;
    var img1Array := new Byte[|baseData|](i requires 0 <= i < |baseData| => baseData[i]);
    var img2Array := new Byte[|currentData|](i requires 0 <= i < |currentData| => currentData[i]);
    var img3Array := new Byte[|baseData|](_ => 0);
    assert img1Array[..] == baseData && img2Array[..] == currentData;
    var diffPixelsCount, thresholdReached :=
      ScanPixels(img1Array, img2Array, img3Array, totalPixels, qtdDiffThreshold, pxDistThreshold);
    pass := Computed(DiffResult(thresholdReached, totalPixels, diffPixelsCount), img3Array[..]);
  }
}
