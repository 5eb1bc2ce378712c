/** The slideshow controller (`js/slider.core.js`): two slide elements taking turns,
    the index of the image shown, the guard against overlapping transitions, the
    autoplay timer, the captions, the diagnostic overlay and the two keyboard listeners.

    The controller is a value of `Slider`, and every entry point (a key press, an
    `animationend` event, the timer firing, a call through one of the `window.__`
    functions) is a function from one value to the next. The random draw that
    `pickTransitionName` makes is a parameter, `choice`. */
module SliderCore {
  import opened JsBase
  import Shuffle
  import opened SliderUtils
  import T = SliderTransitions

  /** `config.keyboard`: present when it is truthy, and its `enabled` member when that is
      a boolean. A truthy value that is not an object (such as `true`) has no `enabled`
      member, so it is `KeyboardConfig(None)`. */
  datatype KeyboardConfig = KeyboardConfig(enabled: Option<bool>)

  /** `config.debug`: present when it is truthy, and its `enabled` member when that is a
      boolean; a truthy non-object such as `true` is `DebugConfig(None)`. */
  datatype DebugConfig = DebugConfig(enabled: Option<bool>)

  /** The parts of `config.json` the controller reads. `autoplay` is the truthiness of
      `config.autoplay`; `delay` is present only when it is a number. */
  datatype Config = Config(
    images: Option<ImagesConfig>,
    transitions: Option<seq<string>>,
    randomTransitions: Option<bool>,
    autoplay: bool,
    delay: Option<int>,
    keyboard: Option<KeyboardConfig>,
    debug: Option<DebugConfig>)

  /** Which elements the page provides: the slider container, the diagnostic overlay,
      the three caption fields, and the caption container. */
  datatype Page = Page(hasSlider: bool, hasDebugOverlay: bool, hasCaptionFields: bool, hasCaptionContainer: bool)

  /** The autoplay timer: none, or one pending with its delay in milliseconds. A single
      field, so at most one timer is ever pending. */
  datatype Timer = NoTimer | Pending(delay: int)

  /** The two slide elements the controller creates; `current` says which one is shown. */
  datatype Slot = SlotA | SlotB

  /** An inline `display` value: never set, `block`, or `none`. */
  datatype Display = DisplayUnset | DisplayBlock | DisplayNone

  /** What the three caption fields show. */
  datatype CaptionView = CaptionView(title: string, description: string, meta: string)

  /** A transition in flight: the run of the transition and the image it moves to (the
      completion callback's `toImg`). */
  datatype InFlight = InFlight(run: T.Run, toImg: ImageEntry)

  /** Where an `animationend` event comes from: one of the two slides, or elsewhere. */
  datatype EventTarget = SlideTarget(slot: Slot) | Elsewhere

  /** Forward (`goTo(1)`) or backward (`goTo(-1)`). */
  datatype Direction = Forward | Backward

  /** The controller's whole state. `debug` and `caption` are `None` when the page lacks
      the overlay or the caption fields; `captionDisplay` is `None` without a caption
      container. */
  datatype Slider = Slider(
    config: Config,
    images: seq<ImageEntry>,
    available: seq<string>,
    captions: Option<map<string, Caption>>,
    currentIndex: int,
    isTransitioning: bool,
    slideA: T.SlideEl,
    slideB: T.SlideEl,
    current: Slot,
    autoplay: bool,
    timer: Timer,
    inFlight: Option<InFlight>,
    debug: Option<DebugView>,
    caption: Option<CaptionView>,
    captionDisplay: Option<Display>)

  /** The autoplay delay when `config.delay` is not a number. */
  const DefaultDelay: int := 4000

  /** The effect name shown by the overlay at startup and on a manual toggle. */
  const InitialEffectLabel: string := "(initial)"
  const ManualEffectLabel: string := "(manual)"

  /** The separator between a caption's author and date, character for character as the
      source file has it: a bullet whose UTF-8 bytes were read back as Windows-1252. */
  const MetaSeparator: string := " \U{00E2}\U{20AC}\U{00A2} "

  function Other(s: Slot): (o: Slot)
    ensures o != s
  {
    if s == SlotA then SlotB else SlotA
  }

  function Delta(dir: Direction): int
  {
    if dir == Forward then 1 else -1
  }

  function El(st: Slider, s: Slot): T.SlideEl
  {
    if s == SlotA then st.slideA else st.slideB
  }

  /** `currentEl` and `nextEl`. */
  function CurrentEl(st: Slider): T.SlideEl { El(st, st.current) }
  function NextEl(st: Slider): T.SlideEl { El(st, Other(st.current)) }

  /** Puts a run's two elements back in their slots. */
  function WriteBack(st: Slider, run: T.Run): (st': Slider)
    requires run.Animating?
    ensures CurrentEl(st') == run.cur && NextEl(st') == run.nxt
    ensures st' == st.(slideA := st'.slideA, slideB := st'.slideB)
  {
    if st.current == SlotA then st.(slideA := run.cur, slideB := run.nxt)
    else st.(slideB := run.cur, slideA := run.nxt)
  }

  /** `config.debug && config.debug.enabled`, as used at startup and by `goTo`. */
  predicate DebugEnabled(config: Config)
  {
    config.debug.Some? && config.debug.value.enabled == Some(true)
  }

  /** `!(config.debug && config.debug.enabled === false)`, as used by `__toggleDebug`. */
  predicate ManualDebugEnabled(config: Config)
  {
    !(config.debug.Some? && config.debug.value.enabled == Some(false))
  }

  /** `config.keyboard && config.keyboard.enabled !== false`: whether the first keyboard
      listener is registered. */
  predicate KeyboardEnabled(config: Config)
  {
    config.keyboard.Some? && config.keyboard.value.enabled != Some(false)
  }

  /** A draw `pickTransitionName` could make from this controller's list of effects. */
  predicate ChoiceOk(st: Slider, choice: nat)
  {
    |st.available| == 0 || choice < |st.available|
  }

  /** The state invariant. There is at least one image and the index is in range; a
      transition is in flight exactly when the flag is set; without autoplay no timer is
      pending. While idle the shown slide displays the current image at full opacity,
      the other slide is hidden, and both carry only the `slide` class. While a
      transition is in flight its run is consistent, has not completed, holds the two
      slides as they are, and moves to the current image. */
  predicate Valid(st: Slider)
  {
    && |st.images| > 0
    && 0 <= st.currentIndex < |st.images|
    && (st.isTransitioning <==> st.inFlight.Some?)
    && (!st.autoplay ==> st.timer == NoTimer)
    && (st.inFlight.None? ==> Idle(st))
    && (st.inFlight.Some? ==> InFlightOk(st, st.inFlight.value))
  }

  predicate Idle(st: Slider)
    requires 0 <= st.currentIndex < |st.images|
  {
    && CurrentEl(st).image == st.images[st.currentIndex].src
    && CurrentEl(st).opacity == 1 && NextEl(st).opacity == 0
    && CurrentEl(st).classes == {T.SlideClass} && NextEl(st).classes == {T.SlideClass}
  }

  predicate InFlightOk(st: Slider, f: InFlight)
    requires 0 <= st.currentIndex < |st.images|
  {
    && f.run.Animating?
    && T.Consistent(f.run)
    && T.DoneCalls(f.run) == 0
    && f.run.cur == CurrentEl(st) && f.run.nxt == NextEl(st)
    && f.toImg == st.images[st.currentIndex]
    && f.run.nxt.image == f.toImg.src
  }

  /** `getCurrentImage`: `images[currentIndex % images.length]`, always an image of the
      list, and the one at `currentIndex`. */
  function CurrentImage(st: Slider): (img: ImageEntry)
    requires Valid(st)
    ensures img in st.images && img == st.images[st.currentIndex]
  {
    ImageAt(st.images, st.currentIndex)
  }

  /** `images[i % images.length]`, which for an index in range is `images[i]`. */
  function ImageAt(images: seq<ImageEntry>, i: int): (img: ImageEntry)
    requires 0 <= i < |images|
    ensures img == images[i]
  {
    images[i % |images|]
  }

  /** `getNextIndex(delta)`: `(currentIndex + delta + len) % len` with JavaScript's `%`.
      It lies in `[0, len)` whenever the dividend is not negative, in particular for a
      step of one either way from an index in range. */
  function NextIndex(currentIndex: int, len: nat, delta: int): (r: int)
    requires len > 0
    ensures currentIndex + delta + len >= 0 ==> 0 <= r < len
  {
    Rem(currentIndex + delta + len, len)
  }

  /** An independent description of a step: forward wraps from the last image to the
      first, backward from the first to the last. */
  lemma NextIndexSteps(i: int, len: nat)
    requires 0 <= i < len
    ensures NextIndex(i, len, 1) == if i + 1 == len then 0 else i + 1
    ensures NextIndex(i, len, -1) == if i == 0 then len - 1 else i - 1
  {
    if i + 1 == len {
      ModBetween(i + 1 + len, len, 2);
    } else {
      ModBetween(i + 1 + len, len, 1);
    }
    if i == 0 {
      ModBetween(i - 1 + len, len, 0);
    } else {
      ModBetween(i - 1 + len, len, 1);
    }
  }

  /** A step forward then back, or back then forward, returns to the same index. */
  lemma NextThenPrev(i: int, len: nat)
    requires 0 <= i < len
    ensures NextIndex(NextIndex(i, len, 1), len, -1) == i
    ensures NextIndex(NextIndex(i, len, -1), len, 1) == i
  {
    NextIndexSteps(i, len);
    NextIndexSteps(NextIndex(i, len, 1), len);
    NextIndexSteps(NextIndex(i, len, -1), len);
  }

  /** The author and date line of a caption: the non-empty ones of the two, joined by
      the separator. */
  function MetaLine(author: string, date: string): (meta: string)
    ensures meta == "" <==> author == "" && date == ""
    ensures author == "" ==> meta == date
    ensures date == "" ==> meta == author
    ensures author != "" && date != "" ==> |meta| == |author| + |MetaSeparator| + |date|
    ensures author != "" && date != "" ==> meta[..|author|] == author && meta[|meta| - |date|..] == date
    ensures author != "" && date != "" ==> meta[|author|..|author| + |MetaSeparator|] == MetaSeparator
  {
    if author != "" && date != "" then author + MetaSeparator + date
    else if author != "" then author
    else date
  }

  /** The caption fields for an image: its entry's title, description and author/date
      line, each empty when the captions document has nothing for the file. */
  function CaptionFor(captions: Option<map<string, Caption>>, filename: string): (v: CaptionView)
    ensures GetCaptionForFilename(captions, filename).None? ==> v == CaptionView("", "", "")
    ensures GetCaptionForFilename(captions, filename).Some? ==>
      var c := captions.value[filename];
      v.title == c.title && v.description == c.description && v.meta == MetaLine(c.author, c.date)
  {
    match GetCaptionForFilename(captions, filename)
    case None => CaptionView("", "", "")
    case Some(c) => CaptionView(c.title, c.description, MetaLine(c.author, c.date))
  }

  /** `updateCaptionsForImage`: nothing without the caption fields. */
  function UpdateCaptions(st: Slider, img: ImageEntry): (st': Slider)
    ensures st' == st.(caption := st'.caption)
    ensures st.caption.None? <==> st'.caption.None?
    ensures st'.caption.Some? ==> st'.caption.value == CaptionFor(st.captions, img.filename)
  {
    if st.caption.None? then st else st.(caption := Some(CaptionFor(st.captions, img.filename)))
  }

  /** The autoplay delay: `config.delay` when it is a number, 4000 ms otherwise. */
  function AutoplayDelay(config: Config): (d: int)
    ensures config.delay.Some? ==> d == config.delay.value
    ensures config.delay.None? ==> d == DefaultDelay
  {
    if config.delay.Some? then config.delay.value else DefaultDelay
  }

  /** `scheduleAutoplay`: drop any pending timer, then arm one with the configured delay
      (or 4000 ms when the delay is not a number) if autoplay is on. Nothing else
      changes, and it keeps the invariant. */
  function ScheduleAutoplay(st: Slider): (st': Slider)
    ensures st' == st.(timer := st'.timer)
    ensures !st.autoplay ==> st'.timer == NoTimer
    ensures st.autoplay ==> st'.timer.Pending?
    ensures st'.timer.Pending? ==> st'.timer.delay == AutoplayDelay(st.config)
    ensures Valid(st) ==> Valid(st')
  {
    st.(timer := if st.autoplay then Pending(AutoplayDelay(st.config)) else NoTimer)
  }

  /** Scheduling twice is scheduling once. */
  lemma ScheduleIdempotent(st: Slider)
    ensures ScheduleAutoplay(ScheduleAutoplay(st)) == ScheduleAutoplay(st)
  {
  }

  /** The controller at startup. `None` when the configuration lists no image (the
      script stops there), or when the page has no slider container (appending the
      slides to it throws). `picks` are the draws of the shuffle, used only when
      `images.shuffle` is set. */
  function Start(config: Config, captions: Option<map<string, Caption>>, page: Page, picks: seq<nat>): (r: Option<Slider>)
    requires Shuffle.ValidPicks(picks, |BuildImageList(config.images)|)
    ensures r.None? <==> |BuildImageList(config.images)| == 0 || !page.hasSlider
    ensures r.Some? ==> Valid(r.value) && r.value.currentIndex == 0 && !r.value.isTransitioning
  {
    var list := BuildImageList(config.images);
    if |list| == 0 || !page.hasSlider then None
    else
      var images := if config.images.Some? && config.images.value.shuffle then Shuffle.FisherYates(list, picks) else list;
      InitialFacts(config, captions, page, images);
      Some(Initial(config, captions, page, images))
  }

  /** `showInitial` followed by `scheduleAutoplay`, on the (possibly shuffled) list. */
  function Initial(config: Config, captions: Option<map<string, Caption>>, page: Page, images: seq<ImageEntry>): Slider
    requires |images| > 0
  {
    var img := images[0];
    var blank := T.SlideEl({T.SlideClass}, 0, "");
    var st := Slider(
      config, images, AvailableTransitions(config.transitions), captions,
      0, false,
      blank.(image := img.src, opacity := 1), blank, SlotA,
      config.autoplay, NoTimer, None,
      UpdateDebugOverlay(if page.hasDebugOverlay then Some(DebugView(false, "")) else None,
                         DebugEnabled(config), Some(img), InitialEffectLabel),
      if page.hasCaptionFields then Some(CaptionView("", "", "")) else None,
      if page.hasCaptionContainer then Some(DisplayUnset) else None);
    ScheduleAutoplay(UpdateCaptions(st, img))
  }

  lemma InitialFacts(config: Config, captions: Option<map<string, Caption>>, page: Page, images: seq<ImageEntry>)
    requires |images| > 0
    ensures var st := Initial(config, captions, page, images);
      && Valid(st) && st.images == images && st.currentIndex == 0 && !st.isTransitioning
      && st.available == AvailableTransitions(config.transitions)
      && st.autoplay == config.autoplay
      && (st.autoplay <==> st.timer.Pending?)
  ensures var st := Initial(config, captions, page, images);
      && st.config == config && st.captions == captions
      && st.timer == (if config.autoplay then Pending(AutoplayDelay(config)) else NoTimer)
      && st.caption == (if page.hasCaptionFields then Some(CaptionFor(captions, images[0].filename)) else None)
      && st.debug == UpdateDebugOverlay(if page.hasDebugOverlay then Some(DebugView(false, "")) else None,
                                        DebugEnabled(config), Some(images[0]), InitialEffectLabel)
      && st.captionDisplay == (if page.hasCaptionContainer then Some(DisplayUnset) else None)
  {
  }

  /** The controller after a successful startup: it keeps the configuration and the
      captions; its images are the configured ones, reordered only when `images.shuffle`
      is set; it shows the first of them, with its caption and the overlay's startup
      label; its effects are the configured list or just `fade`; and a timer with the
      configured delay is pending exactly when autoplay is on. */
  lemma StartState(config: Config, captions: Option<map<string, Caption>>, page: Page, picks: seq<nat>)
    requires Shuffle.ValidPicks(picks, |BuildImageList(config.images)|)
    requires Start(config, captions, page, picks).Some?
    ensures var st := Start(config, captions, page, picks).value;
      && multiset(st.images) == multiset(BuildImageList(config.images))
      && (config.images.None? || !config.images.value.shuffle ==> st.images == BuildImageList(config.images))
      && CurrentImage(st) == st.images[0]
      && st.available == AvailableTransitions(config.transitions)
      && st.autoplay == config.autoplay
      && (st.autoplay <==> st.timer.Pending?)
    ensures var st := Start(config, captions, page, picks).value;
      && st.config == config && st.captions == captions
      && st.timer == (if config.autoplay then Pending(AutoplayDelay(config)) else NoTimer)
      && st.caption == (if page.hasCaptionFields then Some(CaptionFor(captions, st.images[0].filename)) else None)
      && st.debug == UpdateDebugOverlay(if page.hasDebugOverlay then Some(DebugView(false, "")) else None,
                                        DebugEnabled(config), Some(st.images[0]), InitialEffectLabel)
      && st.captionDisplay == (if page.hasCaptionContainer then Some(DisplayUnset) else None)
  {
    var list := BuildImageList(config.images);
    var images := if config.images.Some? && config.images.value.shuffle then Shuffle.FisherYates(list, picks) else list;
    InitialFacts(config, captions, page, images);
  }

  /** `goTo(delta)`. While a transition is in flight it does nothing at all. Otherwise it
      raises the flag, moves the index one step, puts the new image on the hidden slide,
      picks an effect, updates the overlay and starts the transition, which it keeps as
      in flight until the completion callback. */
  function GoTo(st: Slider, dir: Direction, choice: nat): (st': Slider)
    requires Valid(st) && ChoiceOk(st, choice)
    ensures Valid(st')
    ensures st.isTransitioning ==> st' == st
    ensures !st.isTransitioning ==> st'.isTransitioning && st'.currentIndex == NextIndex(st.currentIndex, |st.images|, Delta(dir))
    ensures st'.images == st.images && st'.available == st.available
    ensures st'.config == st.config && st'.captions == st.captions
    ensures st'.autoplay == st.autoplay && st'.timer == st.timer
    ensures st'.caption == st.caption && st'.captionDisplay == st.captionDisplay
  {
    if st.isTransitioning then st
    else
      var len := |st.images|;
      var idx := NextIndex(st.currentIndex, len, Delta(dir));
      var toImg := ImageAt(st.images, idx);
      var effect := PickTransitionName(st.config.randomTransitions, st.available, choice);
      LaunchFacts(st, idx, toImg, effect);
      Launch(st, idx, toImg, effect)
  }

  /** The part of `goTo` past its guard, with the new index, image and effect chosen. */
  function Launch(st: Slider, idx: int, toImg: ImageEntry, effect: string): Slider
  {
    var run := T.Start(effect, Some(CurrentEl(st)), Some(NextEl(st).(image := toImg.src)));
    WriteBack(st, run).(
      currentIndex := idx,
      isTransitioning := true,
      inFlight := Some(InFlight(run, toImg)),
      debug := UpdateDebugOverlay(st.debug, DebugEnabled(st.config), Some(toImg), effect))
  }

  /** What starting a transition does to the controller: it is valid again, with the
      transition in flight and both listeners waiting. */
  lemma LaunchFacts(st: Slider, idx: int, toImg: ImageEntry, effect: string)
    requires Valid(st) && !st.isTransitioning && 0 <= idx < |st.images| && toImg == st.images[idx]
    ensures var st' := Launch(st, idx, toImg, effect);
      && Valid(st')
      && st'.isTransitioning && st'.currentIndex == idx && st'.current == st.current
      && NextEl(st').image == toImg.src && CurrentEl(st').image == CurrentEl(st).image
      && st'.timer == st.timer && st'.autoplay == st.autoplay
      && st'.images == st.images && st'.available == st.available && st'.caption == st.caption
      && st'.inFlight.value.run.listenNext && st'.inFlight.value.run.listenCurrent
      && st'.inFlight.value.run.nxt.classes == {T.SlideClass, T.Resolve(effect).incoming}
      && st'.inFlight.value.run.cur.classes == {T.SlideClass, T.Resolve(effect).outgoing}
      && st'.debug == UpdateDebugOverlay(st.debug, DebugEnabled(st.config), Some(toImg), effect)
  {
    var incoming := NextEl(st).(image := toImg.src);
    T.StartWithConsistent(T.Resolve(effect), Some(CurrentEl(st)), Some(incoming));
    var run := T.Start(effect, Some(CurrentEl(st)), Some(incoming));
    var st' := Launch(st, idx, toImg, effect);
    assert st'.inFlight == Some(InFlight(run, toImg));
    assert InFlightOk(st', st'.inFlight.value);
  }

  /** `goTo` from an idle controller: the hidden slide gets the new image while the shown
      one keeps its own; the run animates the picked effect's incoming and outgoing
      classes, with both listeners waiting; the overlay shows the new image and the
      effect; and the timer, autoplay, images, effects and captions are left alone. */
  lemma GoToStarts(st: Slider, dir: Direction, choice: nat)
    requires Valid(st) && ChoiceOk(st, choice) && !st.isTransitioning
    ensures var st' := GoTo(st, dir, choice);
      var effect := PickTransitionName(st.config.randomTransitions, st.available, choice);
      && st'.inFlight.Some?
      && st'.inFlight.value.run.nxt.classes == {T.SlideClass, T.Resolve(effect).incoming}
      && st'.inFlight.value.run.cur.classes == {T.SlideClass, T.Resolve(effect).outgoing}
      && st'.debug == UpdateDebugOverlay(st.debug, DebugEnabled(st.config), Some(st.images[st'.currentIndex]), effect)
    ensures var st' := GoTo(st, dir, choice);
      && st'.current == st.current
      && NextEl(st').image == st.images[st'.currentIndex].src
      && CurrentEl(st').image == CurrentEl(st).image
      && st'.timer == st.timer && st'.autoplay == st.autoplay
      && st'.images == st.images && st'.available == st.available && st'.caption == st.caption
      && st'.inFlight.Some? && st'.inFlight.value.run.listenNext && st'.inFlight.value.run.listenCurrent
  {
    var len := |st.images|;
    var idx := NextIndex(st.currentIndex, len, Delta(dir));
    var effect := PickTransitionName(st.config.randomTransitions, st.available, choice);
    var toImg := ImageAt(st.images, idx);
    LaunchFacts(st, idx, toImg, effect);
    assert GoTo(st, dir, choice) == Launch(st, idx, toImg, effect);
  }

  /** The completion callback: swap the two slides, show the new image's caption, clear
      the flag and re-arm autoplay. Nothing else changes. */
  function Complete(st: Slider, toImg: ImageEntry): (st': Slider)
    ensures !st'.isTransitioning && st'.inFlight.None?
    ensures st'.current == Other(st.current)
    ensures st'.timer == (if st.autoplay then Pending(AutoplayDelay(st.config)) else NoTimer)
    ensures st.caption.None? ==> st'.caption.None?
    ensures st.caption.Some? ==> st'.caption == Some(CaptionFor(st.captions, toImg.filename))
    ensures st' == st.(current := st'.current, isTransitioning := false, inFlight := None, caption := st'.caption, timer := st'.timer)
  {
    ScheduleAutoplay(UpdateCaptions(st.(current := Other(st.current)), toImg).(isTransitioning := false, inFlight := None))
  }

  /** Which of the run's listeners an event would reach. */
  function TargetOf(st: Slider, target: EventTarget): T.Target
  {
    match target
    case SlideTarget(s) => if s == st.current then T.CurrentTarget else T.NextTarget
    case Elsewhere => T.OtherTarget
  }

  /** An `animationend` event. Without a transition in flight no listener is installed.
      Otherwise the run takes the event; when that completes it, the completion
      callback runs. */
  function AnimationEnd(st: Slider, target: EventTarget): (st': Slider)
    requires Valid(st)
    ensures Valid(st')
    ensures st.inFlight.None? ==> st' == st
    ensures st'.currentIndex == st.currentIndex && st'.images == st.images && st'.autoplay == st.autoplay
    ensures st'.available == st.available && st'.config == st.config && st'.captions == st.captions
    ensures st'.debug == st.debug && st'.captionDisplay == st.captionDisplay
    ensures st.isTransitioning && !st'.isTransitioning ==> st'.current == Other(st.current)
    ensures st.isTransitioning && !st'.isTransitioning ==>
      && st'.timer == (if st.autoplay then Pending(AutoplayDelay(st.config)) else NoTimer)
      && (st.caption.None? ==> st'.caption.None?)
      && (st.caption.Some? ==> st'.caption == Some(CaptionFor(st.captions, st.images[st.currentIndex].filename)))
    ensures st'.isTransitioning ==> st'.current == st.current && st'.timer == st.timer && st'.caption == st.caption
    ensures st'.isTransitioning ==>
      && st.inFlight.Some? && st'.inFlight.Some?
      && st' == st.(inFlight := st'.inFlight)
      && st'.inFlight.value.toImg == st.inFlight.value.toImg
  {
    match st.inFlight
    case None => st
    case Some(f) =>
      var t := TargetOf(st, target);
      T.DeliverConsistent(f.run, t);
      var run := T.Deliver(f.run, t);
      var st1 := WriteBack(st, run);
      if T.DoneCalls(run) == 0 then st1.(inFlight := Some(f.(run := run)))
      else Complete(st1, f.toImg)
  }

  /** The autoplay timer firing: the timer is spent, and `goTo(1)` runs. */
  function TimerFires(st: Slider, choice: nat): (st': Slider)
    requires Valid(st) && ChoiceOk(st, choice)
    ensures Valid(st')
    ensures st.timer.NoTimer? ==> st' == st
    ensures st.timer.Pending? ==> st'.timer == NoTimer
    ensures st.timer.Pending? && st.isTransitioning ==> st' == st.(timer := NoTimer)
    ensures st.timer.Pending? && !st.isTransitioning ==>
      st'.isTransitioning && st'.currentIndex == NextIndex(st.currentIndex, |st.images|, 1)
    ensures st'.images == st.images && st'.available == st.available
  {
    if st.timer.NoTimer? then st
    else
      var spent := st.(timer := NoTimer);
      if st.isTransitioning then GoTo(spent, Forward, choice)
      else GoToStarts(spent, Forward, choice); GoTo(spent, Forward, choice)
  }

  /** `__toggleAutoplay` (and the space bar in the first listener): flip autoplay and
      reschedule. */
  function ToggleAutoplay(st: Slider): (st': Slider)
    ensures st'.autoplay == !st.autoplay
    ensures st' == st.(autoplay := st'.autoplay, timer := st'.timer)
    ensures st'.timer.Pending? <==> st'.autoplay
    ensures Valid(st) ==> Valid(st')
  {
    ScheduleAutoplay(st.(autoplay := !st.autoplay))
  }

  /** Toggling autoplay twice restores the flag, with the timer freshly scheduled. */
  lemma ToggleAutoplayTwice(st: Slider)
    ensures ToggleAutoplay(ToggleAutoplay(st)) == ScheduleAutoplay(st)
  {
  }

  /** `__toggleDebug`: nothing without the overlay; a visible overlay is hidden;
      otherwise it is updated for the current image with the label `(manual)`, shown
      unless the configuration sets `debug.enabled` to `false`. */
  function ToggleDebug(st: Slider): (st': Slider)
    requires Valid(st)
    ensures st' == st.(debug := st'.debug)
    ensures st.debug.None? ==> st'.debug.None?
    ensures st.debug.Some? ==> st'.debug.Some?
    ensures st.debug.Some? && st.debug.value.visible ==> !st'.debug.value.visible && st'.debug.value.text == st.debug.value.text
    ensures st.debug.Some? && !st.debug.value.visible ==>
      (st'.debug.value.visible <==> ManualDebugEnabled(st.config))
    ensures st'.debug.Some? && st'.debug.value.visible ==> st'.debug.value.text == DebugText(CurrentImage(st), ManualEffectLabel)
  {
    match st.debug
    case None => st
    case Some(v) =>
      if v.visible then st.(debug := Some(v.(visible := false)))
      else st.(debug := UpdateDebugOverlay(st.debug, ManualDebugEnabled(st.config), Some(CurrentImage(st)), ManualEffectLabel))
  }

  /** `__toggleCaptions`: a container hidden with `none` is shown with `block`; any other
      value (including none set yet) becomes `none`. */
  function ToggleCaptions(st: Slider): (st': Slider)
    ensures st' == st.(captionDisplay := st'.captionDisplay)
    ensures st.captionDisplay.None? <==> st'.captionDisplay.None?
    ensures st.captionDisplay == Some(DisplayNone) ==> st'.captionDisplay == Some(DisplayBlock)
    ensures st.captionDisplay.Some? && st.captionDisplay != Some(DisplayNone) ==> st'.captionDisplay == Some(DisplayNone)
  {
    match st.captionDisplay
    case None => st
    case Some(d) => st.(captionDisplay := Some(if d == DisplayNone then DisplayBlock else DisplayNone))
  }

  /** Toggling the captions twice restores a container whose display has been set; one
      never set ends up `block`. */
  lemma ToggleCaptionsTwice(st: Slider)
    ensures st.captionDisplay != Some(DisplayUnset) ==> ToggleCaptions(ToggleCaptions(st)) == st
    ensures st.captionDisplay == Some(DisplayUnset) ==> ToggleCaptions(ToggleCaptions(st)).captionDisplay == Some(DisplayBlock)
  {
  }

  /** What a keyboard listener does with a key. */
  datatype Action = Go(dir: Direction) | AutoplayToggle | DebugToggle | CaptionsToggle | NoAction

  /** The first listener, registered only when the keyboard is enabled. */
  function FirstListener(key: string): Action
  {
    if key == "ArrowRight" || key == "Right" then Go(Forward)
    else if key == "ArrowLeft" || key == "Left" then Go(Backward)
    else if key == " " then AutoplayToggle
    else NoAction
  }

  /** The second listener, always registered. */
  function SecondListener(key: string): Action
  {
    if key == "ArrowRight" || key == "Right" then Go(Forward)
    else if key == "ArrowLeft" || key == "Left" then Go(Backward)
    else if key == "ArrowUp" || key == "Up" then DebugToggle
    else if key == "ArrowDown" || key == "Down" then CaptionsToggle
    else if key == "Enter" || key == "OK" then AutoplayToggle
    else NoAction
  }

  /** The keys the two listeners handle. */
  const KnownKeys: set<string> := {"ArrowRight", "Right", "ArrowLeft", "Left", " ", "ArrowUp", "Up", "ArrowDown", "Down", "Enter", "OK"}

  /** The second listener is total on its keys: each handled key has an action, and any
      other key has none. */
  lemma SecondListenerKeys(key: string)
    ensures SecondListener(key) != NoAction <==> key in KnownKeys - {" "}
    ensures FirstListener(key) != NoAction <==> key in {"ArrowRight", "Right", "ArrowLeft", "Left", " "}
    ensures key in {"ArrowRight", "Right"} ==> FirstListener(key) == SecondListener(key) == Go(Forward)
    ensures key in {"ArrowLeft", "Left"} ==> FirstListener(key) == SecondListener(key) == Go(Backward)
    ensures key == " " ==> FirstListener(key) == AutoplayToggle
    ensures key in {"ArrowUp", "Up"} ==> SecondListener(key) == DebugToggle
    ensures key in {"ArrowDown", "Down"} ==> SecondListener(key) == CaptionsToggle
    ensures key in {"Enter", "OK"} ==> SecondListener(key) == AutoplayToggle
  {
  }

  /** Carries out an action: a step moves the index (unless a transition is in flight),
      the autoplay toggle flips autoplay and touches only it and the timer, the debug
      toggle touches only the overlay and hides a shown one, and the captions toggle
      touches only the container's display and changes a present one. */
  function Perform(st: Slider, a: Action, choice: nat): (st': Slider)
    requires Valid(st) && ChoiceOk(st, choice)
    ensures Valid(st')
    ensures st'.images == st.images && st'.available == st.available
    ensures a == NoAction ==> st' == st
    ensures a.Go? && st.isTransitioning ==> st' == st
    ensures a.Go? && !st.isTransitioning ==> st'.currentIndex == NextIndex(st.currentIndex, |st.images|, Delta(a.dir))
    ensures a == AutoplayToggle ==> st' == st.(autoplay := !st.autoplay, timer := st'.timer)
    ensures a == AutoplayToggle ==> st'.timer == (if st'.autoplay then Pending(AutoplayDelay(st.config)) else NoTimer)
    ensures a == DebugToggle ==> st' == st.(debug := st'.debug)
    ensures a == DebugToggle && st.debug.Some? && st.debug.value.visible ==> st'.debug.Some? && !st'.debug.value.visible
    ensures a == CaptionsToggle ==> st' == st.(captionDisplay := st'.captionDisplay)
    ensures a == CaptionsToggle && st.captionDisplay.Some? ==> st'.captionDisplay.Some? && st'.captionDisplay != st.captionDisplay
  {
    match a
    case Go(dir) => GoTo(st, dir, choice)
    case AutoplayToggle => ToggleAutoplay(st)
    case DebugToggle => ToggleDebug(st)
    case CaptionsToggle => ToggleCaptions(st)
    case NoAction => st
  }

  /** A `keydown` event: the first listener (when registered) and then the second one
      each handle the key; `c1` and `c2` are the draws their `goTo` calls would make. */
  function KeyDown(st: Slider, key: string, c1: nat, c2: nat): (st': Slider)
    requires Valid(st) && ChoiceOk(st, c1) && ChoiceOk(st, c2)
    ensures Valid(st')
    ensures st'.images == st.images && st'.available == st.available
  {
    var st1 := if KeyboardEnabled(st.config) then Perform(st, FirstListener(key), c1) else st;
    Perform(st1, SecondListener(key), c2)
  }

  /** Everything that can happen to the controller after startup. */
  datatype Event =
    | Key(key: string, c1: nat, c2: nat)
    | AnimationEndOn(target: EventTarget)
    | TimerFired(choice: nat)
    | CallNext(choice: nat)
    | CallPrev(choice: nat)
    | CallToggleAutoplay
    | CallToggleDebug
    | CallToggleCaptions

  /** The random draws an event carries lie in range. */
  predicate EventOk(st: Slider, e: Event)
  {
    match e
    case Key(_, c1, c2) => ChoiceOk(st, c1) && ChoiceOk(st, c2)
    case TimerFired(c) => ChoiceOk(st, c)
    case CallNext(c) => ChoiceOk(st, c)
    case CallPrev(c) => ChoiceOk(st, c)
    case _ => true
  }

  function Step(st: Slider, e: Event): (st': Slider)
    requires Valid(st) && EventOk(st, e)
  {
    match e
    case Key(key, c1, c2) => KeyDown(st, key, c1, c2)
    case AnimationEndOn(target) => AnimationEnd(st, target)
    case TimerFired(c) => TimerFires(st, c)
    case CallNext(c) => GoTo(st, Forward, c)
    case CallPrev(c) => GoTo(st, Backward, c)
    case CallToggleAutoplay => ToggleAutoplay(st)
    case CallToggleDebug => ToggleDebug(st)
    case CallToggleCaptions => ToggleCaptions(st)
  }

  /** Every event keeps the invariant, and with it: the index stays in range, the image
      list and the list of effects never change, and without autoplay no timer is
      pending. */
  lemma StepKeepsValid(st: Slider, e: Event)
    requires Valid(st) && EventOk(st, e)
    ensures Valid(Step(st, e))
    ensures Step(st, e).images == st.images && Step(st, e).available == st.available
  {
    match e
    case Key(key, c1, c2) =>
    case AnimationEndOn(target) =>
    case TimerFired(c) =>
    case CallNext(c) =>
    case CallPrev(c) =>
    case CallToggleAutoplay =>
    case CallToggleDebug =>
    case CallToggleCaptions =>
  }

  /** Only the completion callback clears the flag: if an event ends a transition, the
      event was an `animationend`, and the slides have traded places. */
  lemma OnlyCompletionClearsFlag(st: Slider, e: Event)
    requires Valid(st) && EventOk(st, e) && st.isTransitioning
    ensures !Step(st, e).isTransitioning ==> e.AnimationEndOn? && Step(st, e).current == Other(st.current)
  {
    match e
    case Key(key, c1, c2) =>
      var st1 := if KeyboardEnabled(st.config) then Perform(st, FirstListener(key), c1) else st;
      assert st1.isTransitioning;
    case _ =>
  }

  /** A sequence of `animationend` events. */
  function AnimationEndAll(st: Slider, targets: seq<EventTarget>): (st': Slider)
    requires Valid(st)
    ensures Valid(st')
    ensures st'.images == st.images && st'.currentIndex == st.currentIndex
    decreases |targets|
  {
    if |targets| == 0 then st else AnimationEndAll(AnimationEnd(st, targets[0]), targets[1..])
  }

  /** With nothing in flight, `animationend` events change nothing. */
  lemma {:induction false} IdleIgnoresAnimationEnd(st: Slider, targets: seq<EventTarget>)
    requires Valid(st) && !st.isTransitioning
    ensures AnimationEndAll(st, targets) == st
    decreases |targets|
  {
    if |targets| > 0 {
      IdleIgnoresAnimationEnd(AnimationEnd(st, targets[0]), targets[1..]);
    }
  }

  /** A transition in flight ends exactly when each slide whose listener is still waiting
      has reported `animationend`; events from elsewhere count for nothing. When it
      ends, the slides have traded places and the index is unchanged. */
  lemma {:induction false} InFlightEndsIffBothReport(st: Slider, targets: seq<EventTarget>)
    requires Valid(st) && st.isTransitioning
    ensures var st' := AnimationEndAll(st, targets);
      var run := st.inFlight.value.run;
      && (!st'.isTransitioning <==>
           (!run.listenNext || SlideTarget(Other(st.current)) in targets)
           && (!run.listenCurrent || SlideTarget(st.current) in targets))
      && st'.currentIndex == st.currentIndex
      && (!st'.isTransitioning ==> st'.current == Other(st.current))
      && (!st'.isTransitioning ==> st'.timer == (if st.autoplay then Pending(AutoplayDelay(st.config)) else NoTimer))
      && (!st'.isTransitioning && st.caption.Some? ==> st'.caption == Some(CaptionFor(st.captions, st.images[st.currentIndex].filename)))
      && (st'.isTransitioning ==> st'.current == st.current)
    decreases |targets|
  {
    if |targets| > 0 {
      var t0 := targets[0];
      var st1 := AnimationEnd(st, t0);
      var run := st.inFlight.value.run;
      T.DeliverConsistent(run, TargetOf(st, t0));
      assert targets == [t0] + targets[1..];
      if st1.isTransitioning {
        InFlightEndsIffBothReport(st1, targets[1..]);
      } else {
        IdleIgnoresAnimationEnd(st1, targets[1..]);
      }
    }
  }

  /** From an idle controller, a step either way followed by any `animationend` events:
      the transition ends exactly when both slides have reported, and then the slides
      have traded places, the new image is the one shown, at full opacity, and the other
      slide is hidden. */
  lemma GoToThenEnd(st: Slider, dir: Direction, choice: nat, targets: seq<EventTarget>)
    requires Valid(st) && ChoiceOk(st, choice) && !st.isTransitioning
    ensures var st' := AnimationEndAll(GoTo(st, dir, choice), targets);
      && st'.currentIndex == NextIndex(st.currentIndex, |st.images|, Delta(dir))
      && (!st'.isTransitioning <==> SlideTarget(SlotA) in targets && SlideTarget(SlotB) in targets)
      && (!st'.isTransitioning ==>
            && st'.current == Other(st.current)
            && CurrentEl(st').image == st.images[st'.currentIndex].src
            && CurrentEl(st').opacity == 1 && NextEl(st').opacity == 0
            && st'.timer == (if st.autoplay then Pending(AutoplayDelay(st.config)) else NoTimer)
            && (st.caption.Some? ==> st'.caption == Some(CaptionFor(st.captions, st.images[st'.currentIndex].filename))))
  {
    var st1 := GoTo(st, dir, choice);
    GoToStarts(st, dir, choice);
    InFlightEndsIffBothReport(st1, targets);
    assert st.current == SlotA || st.current == SlotB;
  }

  /** ArrowRight (or Right) from an idle controller advances exactly once, although both
      listeners ask for it: the second `goTo` meets the guard. ArrowLeft likewise steps
      back exactly once. */
  lemma ArrowStepsOnce(st: Slider, key: string, c1: nat, c2: nat)
    requires Valid(st) && ChoiceOk(st, c1) && ChoiceOk(st, c2) && !st.isTransitioning
    requires key in {"ArrowRight", "Right", "ArrowLeft", "Left"}
    ensures var dir := if key in {"ArrowRight", "Right"} then Forward else Backward;
      KeyDown(st, key, c1, c2) == GoTo(st, dir, if KeyboardEnabled(st.config) then c1 else c2)
    ensures KeyDown(st, key, c1, c2).isTransitioning
  {
    var dir := if key in {"ArrowRight", "Right"} then Forward else Backward;
    assert FirstListener(key) == Go(dir) && SecondListener(key) == Go(dir);
    if KeyboardEnabled(st.config) {
      var st1 := GoTo(st, dir, c1);
      assert st1.isTransitioning;
      assert Perform(st1, Go(dir), c2) == st1;
    }
  }

  /** A key neither listener handles changes nothing. */
  lemma UnknownKeyIgnored(st: Slider, key: string, c1: nat, c2: nat)
    requires Valid(st) && ChoiceOk(st, c1) && ChoiceOk(st, c2)
    requires key !in KnownKeys
    ensures KeyDown(st, key, c1, c2) == st
  {
    SecondListenerKeys(key);
  }

  /** The space bar toggles autoplay only through the first listener, so only when the
      keyboard is enabled; Enter and OK toggle it through the second, always. */
  lemma AutoplayKeys(st: Slider, key: string, c1: nat, c2: nat)
    requires Valid(st) && ChoiceOk(st, c1) && ChoiceOk(st, c2)
    requires key in {" ", "Enter", "OK"}
    ensures KeyDown(st, key, c1, c2).autoplay == (if key == " " && !KeyboardEnabled(st.config) then st.autoplay else !st.autoplay)
    ensures KeyDown(st, key, c1, c2) == (if key == " " && !KeyboardEnabled(st.config) then st else ToggleAutoplay(st))
  {
    if key == " " {
      assert FirstListener(key) == AutoplayToggle && SecondListener(key) == NoAction;
    } else {
      assert FirstListener(key) == NoAction && SecondListener(key) == AutoplayToggle;
    }
  }

  /** Up toggles the debug overlay and Down the caption container, through the second
      listener alone; nothing else changes. */
  lemma OverlayKeys(st: Slider, key: string, c1: nat, c2: nat)
    requires Valid(st) && ChoiceOk(st, c1) && ChoiceOk(st, c2)
    ensures key in {"ArrowUp", "Up"} ==> KeyDown(st, key, c1, c2) == ToggleDebug(st)
    ensures key in {"ArrowDown", "Down"} ==> KeyDown(st, key, c1, c2) == ToggleCaptions(st)
  {
    if key in {"ArrowUp", "Up"} {
      assert FirstListener(key) == NoAction && SecondListener(key) == DebugToggle;
    } else if key in {"ArrowDown", "Down"} {
      assert FirstListener(key) == NoAction && SecondListener(key) == CaptionsToggle;
    }
  }
}
