/**
 * The polling of `testImagesDiff`: every `triesIntervalMs` a timer callback
 * counts one more try; once both images have loaded it stops polling and
 * either rejects (the sizes differ) or runs the pixel scan and resolves
 * with its result and the wording of the message; if they have not both
 * loaded by try `maxTries` it stops and rejects with a timeout. A canvas
 * of zero width or height makes `getImageData` throw inside the callback,
 * after the interval was cleared, so the promise then never settles.
 *
 * Timer ticks are abstract: each tick is given what the two image loaders
 * show at that moment (not loaded yet, or loaded onto a canvas of some
 * size). An image whose load fails never sets `hasLoaded`, since the loader
 * installs no error handler, so it is `NotLoaded` at every tick.
 */
module ImagePolling {
  import opened JsNumbers
  import opened ColorModel
  import opened DiffEngine

  /** A canvas an image was drawn onto: its size and its RGBA bytes, row by row. */
  datatype Picture = Picture(width: nat, height: nat, data: seq<Byte>)

  /** `getImageData` of a whole canvas has four bytes per pixel. */
  type Canvas = p: Picture | |p.data| == 4 * (p.width * p.height) witness Picture(0, 0, [])

  /** What one loader shows at a tick: `hasLoaded` false, or true with the canvas it drew. */
  datatype Image = NotLoaded | Loaded(canvas: Canvas)

  /** The options of `testImagesDiff` that its outcome depends on. */
  datatype Config = Config(qtdDiffThreshold: real, pxDistThreshold: real, maxTries: int)

  /** The defaults of the options object. */
  const DefaultConfig := Config(0.05, 0.1, 30)

  /** The resolved value: the scan result, the highlighted image, and the two wording choices of its message. */
  datatype Report = Report(result: DiffResult, diffImage: seq<Byte>, wording: (string, string))

  /**
   * How the callback left the promise: still polling, resolved, rejected,
   * or abandoned because the callback threw after clearing the interval
   * (the promise then stays pending for good).
   */
  datatype Outcome = Pending | Resolved(report: Report) | Rejected(message: string) | Thrown(error: string)

  /** The poll's variables: `triesCount`, whether the interval was cleared, and how the promise settled. */
  datatype PollState = PollState(triesCount: nat, done: bool, outcome: Outcome)

  const SizeMismatchMessage := "cannot diff images with different sizes."
  const TimeoutMessage := "some image could not be loaded in the expected time."
  /** The name of the DOM exception `getImageData` throws for an empty area. */
  const IndexSizeErrorName := "IndexSizeError"

  const Initial := PollState(0, false, Pending)

  /** The tick at which polling gives up at the latest: the first one whose count reaches `maxTries`. */
  function TryLimit(config: Config): (limit: nat)
    ensures limit >= 1 && limit >= config.maxTries && (limit == 1 || limit == config.maxTries)
  {
    if config.maxTries <= 1 then 1 else config.maxTries
  }

  predicate SameSize(base: Canvas, current: Canvas)
  {
    base.width == current.width && base.height == current.height
  }

  /** A canvas with no pixels: `getImageData` refuses a zero width or height. */
  predicate Empty(c: Canvas)
  {
    c.width == 0 || c.height == 0
  }

  /** The scan of `calcDiffWithCanvas` on two canvases of one size, and the message wording for its result. */
  function Compare(base: Canvas, current: Canvas, config: Config): Report
    requires SameSize(base, current)
  {
    var total := base.width * base.height;
    var result := PassResult(base.data, current.data, total, config.qtdDiffThreshold, config.pxDistThreshold);
    Report(result, DiffImage(base.data, current.data, config.pxDistThreshold, total),
           DiffResultWording(result.qtdDiffPixels, result.totalImgPixels, config.qtdDiffThreshold))
  }

  /** How the callback ends at the tick where both images have loaded. */
  function Settle(config: Config, base: Canvas, current: Canvas): Outcome
  {
    if !SameSize(base, current) then Rejected(SizeMismatchMessage)
    else if Empty(base) then Thrown(IndexSizeErrorName)
    else Resolved(Compare(base, current, config))
  }

  predicate BothLoaded(base: Image, current: Image)
  {
    base.Loaded? && current.Loaded?
  }

  /** One run of the interval callback; once the interval is cleared the callback no longer runs. */
  function Next(s: PollState, config: Config, base: Image, current: Image): PollState
  {
    if s.done then s
    else
      var tries := s.triesCount + 1;
      if BothLoaded(base, current) then PollState(tries, true, Settle(config, base.canvas, current.canvas))
      else if tries >= config.maxTries then PollState(tries, true, Rejected(TimeoutMessage))
      else PollState(tries, false, Pending)
  }

  /** The state after a sequence of ticks, each given what the two loaders show. */
  function Run(config: Config, ticks: seq<(Image, Image)>): PollState
  {
    if ticks == [] then Initial
    else
      var last := ticks[|ticks| - 1];
      Next(Run(config, ticks[..|ticks| - 1]), config, last.0, last.1)
  }

  /**
   * The invariant of the poll: the interval is cleared exactly when the
   * outcome is final, and the count never passes the limit, staying
   * below it while polling goes on.
   */
  predicate Sound(config: Config, s: PollState)
  {
    && (s.done <==> !s.outcome.Pending?)
    && s.triesCount <= TryLimit(config)
    && (!s.done ==> s.triesCount < TryLimit(config))
  }

  lemma InitialSound(config: Config)
    ensures Sound(config, Initial)
  {
  }

  /** Every tick keeps the invariant. */
  lemma NextSound(s: PollState, config: Config, base: Image, current: Image)
    requires Sound(config, s)
    ensures Sound(config, Next(s, config, base, current))
  {
  }

  /** After any ticks the state is sound, and while polling goes on the count is the number of ticks. */
  lemma {:induction false} RunSound(config: Config, ticks: seq<(Image, Image)>)
    ensures Sound(config, Run(config, ticks))
    ensures !Run(config, ticks).done ==> Run(config, ticks).triesCount == |ticks|
  {
    if ticks != [] {
      var last := ticks[|ticks| - 1];
      RunSound(config, ticks[..|ticks| - 1]);
      NextSound(Run(config, ticks[..|ticks| - 1]), config, last.0, last.1);
    }
  }

  /**
   * The interval is always cleared, at the latest at tick `max(maxTries, 1)`,
   * and the outcome is then final.
   */
  lemma SettlesWithinLimit(config: Config, ticks: seq<(Image, Image)>)
    requires |ticks| >= TryLimit(config)
    ensures Run(config, ticks).done && !Run(config, ticks).outcome.Pending?
  {
    RunSound(config, ticks);
  }

  /** A tick after the interval was cleared changes nothing. */
  lemma SettledStays(s: PollState, config: Config, base: Image, current: Image)
    requires s.done
    ensures Next(s, config, base, current) == s
  {
  }

  /** Once the interval is cleared, later ticks leave the whole state as it is. */
  lemma {:induction false} RunSettledStays(config: Config, ticks: seq<(Image, Image)>, n: nat)
    requires n <= |ticks| && Run(config, ticks[..n]).done
    ensures Run(config, ticks) == Run(config, ticks[..n])
  {
    if n < |ticks| {
      var ticks' := ticks[..|ticks| - 1];
      assert ticks'[..n] == ticks[..n];
      RunSettledStays(config, ticks', n);
    } else {
      assert ticks[..n] == ticks;
    }
  }

  /**
   * While the two images have not both loaded, the poll is pending with one
   * try per tick, and rejects with the timeout message at tick
   * `max(maxTries, 1)`.
   */
  lemma {:induction false} WaitingTicks(config: Config, ticks: seq<(Image, Image)>)
    requires |ticks| <= TryLimit(config)
    requires forall i :: 0 <= i < |ticks| ==> !BothLoaded(ticks[i].0, ticks[i].1)
    ensures Run(config, ticks) == if |ticks| == TryLimit(config) then PollState(|ticks|, true, Rejected(TimeoutMessage))
                                 else PollState(|ticks|, false, Pending)
  {
    if ticks != [] {
      WaitingTicks(config, ticks[..|ticks| - 1]);
    }
  }

  /** If the images never both load within the limit, the poll ends in the timeout rejection, whatever follows. */
  lemma TimeoutWhenNeverLoaded(config: Config, ticks: seq<(Image, Image)>)
    requires |ticks| >= TryLimit(config)
    requires forall i :: 0 <= i < TryLimit(config) ==> !BothLoaded(ticks[i].0, ticks[i].1)
    ensures Run(config, ticks) == PollState(TryLimit(config), true, Rejected(TimeoutMessage))
  {
    var n := TryLimit(config);
    WaitingTicks(config, ticks[..n]);
    RunSettledStays(config, ticks, n);
  }

  /** An image that never loads (its load failed) makes the poll time out. */
  lemma FailedLoadTimesOut(config: Config, ticks: seq<(Image, Image)>)
    requires |ticks| >= TryLimit(config)
    requires forall i :: 0 <= i < |ticks| ==> ticks[i].0 == NotLoaded
    ensures Run(config, ticks).outcome == Rejected(TimeoutMessage)
  {
    TimeoutWhenNeverLoaded(config, ticks);
  }

  /**
   * The first tick at which both images have loaded, if it comes before the
   * limit, decides the outcome, and the interval is cleared there.
   */
  lemma FirstLoadedTickDecides(config: Config, ticks: seq<(Image, Image)>, n: nat)
    requires n < |ticks| && n < TryLimit(config)
    requires forall i :: 0 <= i < n ==> !BothLoaded(ticks[i].0, ticks[i].1)
    requires BothLoaded(ticks[n].0, ticks[n].1)
    ensures Run(config, ticks) == PollState(n + 1, true, Settle(config, ticks[n].0.canvas, ticks[n].1.canvas))
  {
    assert ticks[..n + 1][..n] == ticks[..n];
    WaitingTicks(config, ticks[..n]);
    RunSettledStays(config, ticks, n + 1);
  }

  /**
   * Two empty images of one size, loaded at the first such tick before the
   * limit, leave the interval cleared and the promise unsettled for good,
   * whatever ticks follow.
   */
  lemma EmptyImagesNeverSettle(config: Config, ticks: seq<(Image, Image)>, n: nat)
    requires n < |ticks| && n < TryLimit(config)
    requires forall i :: 0 <= i < n ==> !BothLoaded(ticks[i].0, ticks[i].1)
    requires BothLoaded(ticks[n].0, ticks[n].1)
    requires SameSize(ticks[n].0.canvas, ticks[n].1.canvas) && Empty(ticks[n].0.canvas)
    ensures Run(config, ticks) == PollState(n + 1, true, Thrown(IndexSizeErrorName))
  {
    FirstLoadedTickDecides(config, ticks, n);
  }

  /**
   * Images of different sizes are rejected without a diff; empty images of
   * one size make the callback throw; non-empty images of one size resolve
   * with the scan's result over width times height pixels, its highlighted
   * image, and the message wording that follows the result's flag.
   */
  lemma SettleOutcome(config: Config, base: Canvas, current: Canvas)
    ensures !SameSize(base, current) <==> Settle(config, base, current) == Rejected(SizeMismatchMessage)
    ensures SameSize(base, current) && Empty(base) <==> Settle(config, base, current) == Thrown(IndexSizeErrorName)
    ensures SameSize(base, current) && !Empty(base) <==> Settle(config, base, current).Resolved?
    ensures SameSize(base, current) && !Empty(base) ==>
      var report, total := Settle(config, base, current).report, base.width * base.height;
      && report.result == PassResult(base.data, current.data, total, config.qtdDiffThreshold, config.pxDistThreshold)
      && report.result.totalImgPixels == total
      && report.result.qtdDiffPixels <= total
      && report.diffImage == DiffImage(base.data, current.data, config.pxDistThreshold, total)
      && report.wording == if report.result.thresholdReached then ("at least ", "bigger than or equal")
                           else ("", "smaller than")
  {
    if SameSize(base, current) && !Empty(base) {
      var total := base.width * base.height;
      WordingFollowsFlag(base.data, current.data, total, config.qtdDiffThreshold, config.pxDistThreshold);
      PassCountBounded(base.data, current.data, total, config.qtdDiffThreshold, config.pxDistThreshold);
    }
  }

  /**
   * Under the default options, a non-empty image compared with itself
   * resolves with no different pixel.
   */
  lemma IdenticalImagesResolveClean(base: Canvas)
    ensures Settle(DefaultConfig, base, base)
         == if Empty(base) then Thrown(IndexSizeErrorName)
            else Resolved(Report(DiffResult(false, base.width * base.height, 0),
                                 DiffImage(base.data, base.data, 0.1, base.width * base.height),
                                 ("", "smaller than")))
  {
    var total := base.width * base.height;
    IdenticalImagesPass(base.data, total, 0.05, 0.1);
    WordingFollowsFlag(base.data, base.data, total, 0.05, 0.1);
  }

  /** The variables of one `testImagesDiff` call that its interval callback updates. */
  class Poll {
    const config: Config
    var triesCount: nat
    var done: bool
    var outcome: Outcome

    function State(): PollState
      reads this
    {
      PollState(triesCount, done, outcome)
    }

    predicate Valid()
      reads this
    {
      Sound(config, State())
    }

    constructor (config: Config)
      ensures this.config == config && State() == Initial && Valid()
    {
      this.config := config;
      triesCount := 0;
      done := false;
      outcome := Pending;
    }

    /** One run of the interval callback, given what the two loaders show. */
    method Tick(base: Image, current: Image)
      requires Valid()
      modifies this
      ensures State() == Next(old(State()), config, base, current)
      ensures Valid()
    {
      NextSound(State(), config, base, current);
      if done {
        return;
      }
      triesCount := triesCount + 1;
      if base.Loaded? && current.Loaded? {
        done := true;
        var b, c := base.canvas, current.canvas;
        if b.width != c.width || b.height != c.height {
          outcome := Rejected(SizeMismatchMessage);
          return;
        }
        var pass := CalcDiffWithCanvas(b.data, c.data, b.width, b.height,
                                       config.qtdDiffThreshold, config.pxDistThreshold);
        match pass
        case IndexSizeError =>
          outcome := Thrown(IndexSizeErrorName);
        case Computed(result, diffData) =>
          outcome := Resolved(Report(result, diffData,
                                     DiffResultWording(result.qtdDiffPixels, result.totalImgPixels, config.qtdDiffThreshold)));
      } else if triesCount >= config.maxTries {
        outcome := Rejected(TimeoutMessage);
        done := true;
      }
    }
  }

  /**
   * `testImagesDiff` driven by a given sequence of ticks: the poll runs
   * until its interval is cleared or the ticks run out, and the outcome is
   * how the callback left the promise (`Pending` while it still polls).
   */
  method TestImagesDiff(config: Config, ticks: seq<(Image, Image)>) returns (outcome: Outcome)
    ensures outcome == Run(config, ticks).outcome
    ensures |ticks| >= TryLimit(config) ==> !outcome.Pending?
  {
    var poll := new Poll(config);
    var n := 0;
    while n < |ticks| && !poll.done
      invariant 0 <= n <= |ticks|
      invariant poll.config == config && poll.Valid()
      invariant poll.State() == Run(config, ticks[..n])
    {
      assert ticks[..n + 1][..n] == ticks[..n];
      poll.Tick(ticks[n].0, ticks[n].1);
      n := n + 1;
    }
    if n < |ticks| {
      RunSettledStays(config, ticks, n);
    } else {
      assert ticks[..n] == ticks;
    }
    outcome := poll.outcome;
    if |ticks| >= TryLimit(config) {
      SettlesWithinLimit(config, ticks);
    }
  }
}
