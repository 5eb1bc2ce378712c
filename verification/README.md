# Fullscreen slider — a Dafny model

This project models the two slideshow engines of the fullscreen slider and its
background music player:

- the modular slideshow (`js/slider.core.js` with its helpers `js/slider.utils.js` and
  its transition runner `js/slider.transitions.js`): a controller with two slide
  elements that trade places after each transition. It has an `isTransitioning` guard
  that lets only one transition run at a time. An autoplay timer is re-armed when each
  transition completes. It also owns the caption fields, the diagnostic overlay, and
  two keyboard listeners;
- the modular music player (`js/music.js`): a configured playlist, optionally
  shuffled, played round and round. It shows the title of each track and clamps the
  configured volume to `[0, 1]`;
- the older single-file slideshow (`slider.js`), covering:
  - image discovery by probing numbered files;
  - one slide element per image;
  - a reshuffle at the end of every round;
  - the ArrowLeft arithmetic;
  - its playlist of local and remote tracks.

The modules are:

- `JsBase`: a missing value, and JavaScript's `%`.
- `Text`: the string built-ins the scripts use (`split`, `join`, `pop`, decimal
  rendering).
- `Shuffle`: Fisher–Yates, the shuffle all three scripts share.
- `SliderUtils`, `SliderTransitions` and `SliderCore`: the modular slideshow.
- `Music`: the modular music player.
- `LegacySlider`: the old script.

Each browser effect becomes an explicit input:

- Each value `Math.random` would produce is a parameter. The shuffle takes a list of
  draws `picks` with `picks[i] <= i`. An effect choice is an index below the list's
  length.
- The outcome of `fetch(path)` is an oracle `probe`, and `decodeURIComponent` is a
  function parameter `decode`.
- The DOM is reduced to what the scripts read and write:
  - the class list, opacity and image of each slide;
  - the overlay's visibility and text;
  - the three caption texts and the caption container's `display`;
  - the audio element's source, volume and `paused` flag.
- A timer is `NoTimer` or `Pending(delay)`. `clearTimeout` followed by `setTimeout`
  leaves exactly one timer pending.
- A transition run is a record holding:
  - the two slides;
  - whether each `animationend` listener is still installed;
  - the `finished` counter;
  - the number of `onDone` calls made so far.

  Each `animationend` event is a step on that record.

In four places the code does something a reader might not expect. The model follows
the code in each:

- The modular slideshow does not reshuffle when it wraps round. Only the old script
  reshuffles, and it does so whatever the `shuffle` setting.
- The modular music player keeps `musicIndex` growing and takes it modulo the
  playlist length only when reading.
- Only the modular player clamps the volume. The old script assigns the configured
  volume (or 0.7) as it is. The audio element throws for a value outside `[0, 1]`,
  and `LegacySlider.PlayNext` models that throw.
- The caption separator in `js/slider.core.js` is stored as the three characters
  `â€¢` (a UTF-8 bullet read as Windows-1252). `SliderCore.MetaSeparator` holds those
  characters as they are.

## Model

| member | source | states |
|---|---|---|
| JsBase.Rem | js/slider.core.js:64 | JavaScript's `%` for a positive divisor: the remainder differs from the dividend by a multiple of the divisor and takes the dividend's sign, in `[0, n)` for a non-negative dividend and in `(-n, 0]` for a negative one |
| Text.AfterLastMeaning | js/slider.utils.js:22-23 | the text after the last separator is a suffix of the string that holds no separator, and it is the whole string when there is no separator |
| Text.JoinSplit | js/slider.utils.js:22 | joining the pieces of `split(c)` with `c` gives back the original string |
| Text.SplitJoin | js/slider.utils.js:52-55 | splitting a join of separator-free pieces gives back exactly those pieces |
| Text.NatToString | js/slider.utils.js:53 | a number renders as at least one decimal digit, with no leading zero |
| Text.ParseNatToString | js/slider.utils.js:53 | reading the decimal rendering of a number back gives the number |
| Text.NatToStringInjective | js/slider.utils.js:53 | distinct ordinals render as distinct texts |
| Text.BeforeLastMeaning | js/music.js:21-23 | with a separator present, the string is the part before its last occurrence, the separator, and the part after it; without one, the part before is empty |
| Shuffle.FisherYates | js/slider.utils.js:7-12 | the shuffled list is a permutation of the input: same length and same multiset of elements |
| Shuffle.ShuffleLoop | js/slider.utils.js:7-12 | the in-place loop from the last index down to 1 computes the recursive definition, a permutation of the input |
| Shuffle.ShuffleFromPermutes | js/music.js:10-16 | each pass of the loop `shuffleArray` shares with the other scripts keeps the multiset, so the list it returns is a permutation of its input |
| Shuffle.SwapPermutes | slider.js:45-50 | the destructuring swap `[arr[i], arr[j]] = [arr[j], arr[i]]` keeps the multiset of the list |
| Shuffle.EveryOrderReachable | js/slider.utils.js:7-12 | every reordering of the list is the result of some sequence of in-range draws |
| SliderUtils.FileName | js/slider.utils.js:22-23 | the file name is the text after the last `/`, holds no `/`, and is the whole locator when it has none |
| SliderUtils.BuildImageList | js/slider.utils.js:16-30 | one entry per configured locator, in order: entry `i` has ordinal `i`, that locator, and its file name; empty when `images` or its `sources` is missing |
| SliderUtils.GetCaptionForFilename | js/slider.utils.js:32-36 | a caption is found exactly when there is a captions map, a non-empty file name, and an entry for it; the result is that entry |
| SliderUtils.AvailableTransitions | js/slider.core.js:35 | the configured list of effects when it is an array, otherwise just `fade` |
| SliderUtils.PickTransitionName | js/slider.utils.js:38-43 | `fade` for an empty list; otherwise a member of the list, the first one when random selection is switched off with `false` |
| SliderUtils.PickCanReachEvery | js/slider.utils.js:41-42 | with random selection on, every available effect is picked by some draw |
| SliderUtils.DebugTextReadsBack | js/slider.utils.js:52-55 | the overlay text splits back into exactly its three lines, and the image ordinal reads back from the first line |
| SliderUtils.UpdateDebugOverlay | js/slider.utils.js:45-56 | a missing overlay stays missing; the overlay is shown exactly when enabled and an image is given, with the three-line text; when hidden its text is untouched |
| SliderTransitions.Resolve | js/slider.transitions.js:8-45 | a name in the effect table gets its own entry and any other name gets the fade entry; either way the two class names are non-empty |
| SliderTransitions.UnknownIsFade | js/slider.transitions.js:45 | a name missing from the table behaves exactly as `fade` (`fade-in` / `fade-out`) |
| SliderTransitions.OutgoingFadesUnlessSliding | js/slider.transitions.js:8-32 | the outgoing slide fades out for every effect except `slide-left` and `slide-right` |
| SliderTransitions.IncomingNamesTheEffect | js/slider.transitions.js:8-32 | a known effect's incoming class is its own name exactly when it is not `fade`, `crossfade` or `rotate` |
| SliderTransitions.HandleDone | js/slider.transitions.js:62-71 | each call counts one completion; the first changes nothing else, so the slides keep their classes and the listeners stay; at the second, the outgoing slide is hidden, both slides return to the bare `slide` class, and `onDone` is called once |
| SliderTransitions.Start | js/slider.transitions.js:39-86 | a run skips (calling `onDone` once) exactly when an element is missing; otherwise both listeners wait, both slides are shown with `slide` plus the incoming and outgoing classes, and nothing has completed |
| SliderTransitions.StartWithConsistent | js/slider.transitions.js:73-85 | whatever the mapping, a started run is consistent, and a listener is installed exactly for a non-empty class |
| SliderTransitions.DeliverConsistent | js/slider.transitions.js:75-79 | an event keeps the run consistent; only the listener on the event's own target removes itself |
| SliderTransitions.DeliverAllListeners | js/slider.transitions.js:75-80 | after any events, a listener is still installed exactly when it was and no event with its target arrived |
| SliderTransitions.DoneAtMostOnce | js/slider.transitions.js:59-71 | `onDone` is called at most once, whatever events arrive |
| SliderTransitions.MissingElementDoneOnce | js/slider.transitions.js:40-43 | with an element missing, `onDone` is called once at the start and no later event changes anything |
| SliderTransitions.DoneIffBothEnded | js/slider.transitions.js:59-85 | for any mapping, `onDone` has been called exactly when each slide with a non-empty class has reported `animationend` |
| SliderTransitions.TransitionCompletes | js/slider.transitions.js:62-70 | for any effect, `onDone` fires exactly when both slides have reported; until then the outgoing slide stays visible, and afterwards it is hidden and both classes are reset |
| SliderCore.CurrentImage | js/slider.core.js:58-60 | the current image is an image of the list, the one at `currentIndex` |
| SliderCore.NextIndex | js/slider.core.js:62-65 | the new index lies in `[0, len)` whenever the dividend is not negative |
| SliderCore.NextIndexSteps | js/slider.core.js:62-65 | a step forward wraps from the last image to the first, and a step back from the first to the last |
| SliderCore.NextThenPrev | js/slider.core.js:62-65 | a step forward then back, or back then forward, returns to the same index |
| SliderCore.MetaLine | js/slider.core.js:73-76 | the author and date line is empty exactly when both are empty, is the one present when only one is, and otherwise is the author, then the separator, then the date |
| SliderCore.CaptionFor | js/slider.core.js:69-76 | without an entry for the file all three caption fields are empty; with one, they are its title, its description, and its author and date line |
| SliderCore.UpdateCaptions | js/slider.core.js:67-68 | only the caption fields change, and only when they exist |
| SliderCore.AutoplayDelay | js/slider.core.js:99 | the configured delay when it is a number, 4000 ms otherwise |
| SliderCore.ScheduleAutoplay | js/slider.core.js:96-101 | only the timer changes: none without autoplay; otherwise one pending, with the configured delay or 4000 ms; the invariant is kept |
| SliderCore.ScheduleIdempotent | js/slider.core.js:96-101 | scheduling twice is the same as scheduling once |
| SliderCore.Start | js/slider.core.js:15-50 | startup fails exactly when no image is configured or the page has no slider; otherwise the controller is valid and idle at index 0 |
| SliderCore.InitialFacts | js/slider.core.js:87-101 | the initial state is valid and keeps the configuration and the captions: it shows the list's first image with that image's caption (when the caption fields exist), the overlay carries the image and the startup label, the caption container's display is unset, and a timer with the configured delay is pending exactly when autoplay is on |
| SliderCore.StartState | js/slider.core.js:25-50 | after startup the configuration and captions are kept; the images are a permutation of the configured ones, in their order unless `images.shuffle` is set; the first is shown with its caption and in the overlay; the effects are the configured list or `fade`; a timer with the configured delay is pending exactly when autoplay is on |
| SliderCore.GoTo | js/slider.core.js:103-125 | in flight, nothing changes; otherwise the controller moves one step, becomes in flight, and stays valid; the configuration, images, effects, captions, caption, caption display, autoplay and timer are untouched |
| SliderCore.LaunchFacts | js/slider.core.js:105-116 | starting a transition gives a valid in-flight controller: the new image is on the hidden slide, the shown slide is untouched, the slides carry the effect's classes, both listeners wait, and the debug overlay is updated with the image and effect |
| SliderCore.GoToStarts | js/slider.core.js:103-116 | a step from an idle controller puts the new image on the hidden slide, runs the picked effect's incoming and outgoing classes, shows the new image and the effect in the debug overlay, and leaves the timer, images, effects and captions alone |
| SliderCore.Complete | js/slider.core.js:117-124 | the completion callback swaps the slides, clears the flag, shows the new image's caption (when captions are on), re-arms the timer exactly when autoplay is on, and changes nothing else |
| SliderCore.AnimationEnd | js/slider.core.js:116-124 | an `animationend` keeps the invariant, the index, the overlay and the caption display; with nothing in flight it changes nothing; completing a transition swaps the slides, shows the new image's caption and re-arms the timer when autoplay is on; an event that does not complete it changes only the transition's own record (its count and listeners), so both slide elements, the caption and the timer stay |
| SliderCore.TimerFires | js/slider.core.js:100 | the timer firing is spent; from an idle controller it starts a step forward, and during a transition it changes nothing else; the invariant is kept and the images and effects are unchanged |
| SliderCore.ToggleAutoplay | js/slider.core.js:148-151 | autoplay is flipped, a timer is pending exactly when it is now on, and nothing else changes |
| SliderCore.ToggleAutoplayTwice | js/slider.core.js:148-151 | toggling twice restores autoplay, with the timer freshly scheduled |
| SliderCore.ToggleDebug | js/slider.core.js:152-162 | a visible overlay is hidden with its text kept; a hidden one is shown for the current image with the `(manual)` label unless `debug.enabled` is `false` |
| SliderCore.ToggleCaptions | js/slider.core.js:163-168 | a container set to `none` becomes `block`, and any other display becomes `none` |
| SliderCore.ToggleCaptionsTwice | js/slider.core.js:163-168 | toggling twice restores a display that has been set; one never set ends up `block` |
| SliderCore.SecondListenerKeys | js/slider.core.js:127-193 | each listed key maps to its action (arrows step, Up toggles debug, Down toggles captions, Enter/OK and space toggle autoplay), exactly the listed keys have an action in each listener, and every other key has none |
| SliderCore.Perform | js/slider.core.js:146-187 | every action keeps the invariant; a step moves the index unless a transition is in flight; the autoplay toggle flips autoplay and arms a timer with the configured delay exactly when autoplay is now on, touching nothing else; the debug toggle touches only the overlay and hides a shown one; the captions toggle touches only the container's display and changes a present one; no action changes nothing |
| SliderCore.KeyDown | js/slider.core.js:127-193 | a key press through both listeners keeps the invariant, the images and the effects |
| SliderCore.StepKeepsValid | js/slider.core.js:103-193 | every event keeps the invariant: index in range, in flight exactly when flagged, no timer without autoplay, with the images and effects unchanged |
| SliderCore.OnlyCompletionClearsFlag | js/slider.core.js:104-122 | only an `animationend` that completes the transition clears the flag, and then the slides have traded places |
| SliderCore.AnimationEndAll | js/slider.core.js:116-124 | any sequence of `animationend` events keeps the invariant, the images and the index |
| SliderCore.IdleIgnoresAnimationEnd | js/slider.transitions.js:73-82 | with nothing in flight no listener is installed, so `animationend` events change nothing |
| SliderCore.InFlightEndsIffBothReport | js/slider.core.js:116-124 | a transition ends exactly when each slide whose listener is still waiting has reported; when it ends the slides have traded places, the index is unchanged, the new image's caption is shown and the timer is re-armed when autoplay is on |
| SliderCore.GoToThenEnd | js/slider.core.js:103-124 | a step followed by `animationend` events ends exactly when both slides have reported; the new image is then shown at full opacity, the other slide is hidden, its caption is shown and the timer is re-armed when autoplay is on |
| SliderCore.ArrowStepsOnce | js/slider.core.js:127-193 | an arrow key moves exactly one step, though both listeners ask for one: the guard stops the second |
| SliderCore.UnknownKeyIgnored | js/slider.core.js:170-193 | a key neither listener handles changes nothing |
| SliderCore.AutoplayKeys | js/slider.core.js:138-141 | the space bar toggles autoplay and reschedules the timer only when the keyboard is enabled, and otherwise changes nothing; Enter and OK always do so |
| SliderCore.OverlayKeys | js/slider.core.js:179-187 | Up (ArrowUp) toggles the debug overlay and Down (ArrowDown) the caption container, and a key press does nothing more |
| Music.Clamp01 | js/music.js:61 | the volume applied lies in `[0, 1]`: it is the setting when in range, and 0 or 1 beyond either end |
| Music.ClampIdempotent | js/music.js:61 | clamping a clamped volume changes nothing |
| Music.RawMusicNameMeaning | js/music.js:19-24 | the undecoded title is the last path segment before its last dot (empty without a dot); title, dot and a dot-free extension make up the segment, and the title holds no `/` |
| Music.MusicName | js/music.js:19-24 | no title for an empty source; otherwise the decoded name of the track |
| Music.PlayNextTrack | js/music.js:46-66 | an empty playlist changes nothing; otherwise the track at `musicIndex` (wrapping) plays, the index advances, the title matches, the disc runs, and a configured volume is applied clamped |
| Music.Start | js/music.js:35-81 | nothing plays exactly when there is no audio element or no configured track; otherwise the playlist is a permutation of the sources, in their order unless shuffled, the first track plays unpaused with its name as the title and the disc running, and the player keeps the configured volume, applying it clamped to `[0, 1]` or leaving the element's default |
| Music.Ended | js/music.js:46-69 | the `ended` event plays the next track round the playlist, moves the index on by one, sets the title to its name, runs the disc and leaves the player playing |
| Music.EndedTimesTrack | js/music.js:46-69 | after `k` ended events the index has moved `k` places and the track playing is `k` places further round the playlist |
| Music.NthTrack | js/music.js:35-81 | with an audio element and at least one configured track, startup plays, and from there the `n`-th track played is `tracks[n mod length]` |
| Music.ToggleMusic | js/music.js:84-90 | the pause state flips and the disc runs exactly while playing; nothing else changes |
| Music.ToggleMusicTwice | js/music.js:84-90 | toggling twice gives back the player |
| LegacySlider.FirstFormatNone | slider.js:22-34 | no format is found for an image exactly when no probed path for it exists |
| LegacySlider.DetectImages | slider.js:15-39 | the list holds images `1..k` in order, each under its first existing format, with at most 2000 entries; when the probe stops early, image `k + 1` exists under no format |
| LegacySlider.LocalTracksMembers | slider.js:79-93 | a path is a local track exactly when it is `music/i.mp3` for some `i` in range and it exists |
| LegacySlider.LoadLocalMusic | slider.js:79-93 | the loop gathers every existing track from 1 to 500 in order, without stopping at gaps |
| LegacySlider.StartShow | slider.js:56-73 | startup fails exactly when no image was found or the page has no `#slider` element; otherwise it shows the first slide of a permutation of the detected list, shuffled unless `shuffle` is `false` |
| LegacySlider.AutoplayPeriod | slider.js:208-210 | a timer is started exactly unless `autoplay` is `false`, with the configured delay or 5000 ms |
| LegacySlider.NextSlideAsWritten | slider.js:164-202 | `nextSlide` as written: it throws at once when `index` names no slide; from inside the round it moves one on and applies one of the listed effects; from the last slide it reshuffles (a permutation) and rebuilds the slides, then throws, leaving `index` at the number of slides |
| LegacySlider.AsWrittenWrapSticks | slider.js:164-202 | as written, `nextSlide` from the last slide throws and leaves the index one past the end; every later call throws and changes nothing |
| LegacySlider.AsWrittenTwoImages | slider.js:164-202 | with two images and the second shown, `nextSlide` throws and leaves the index at 2 |
| LegacySlider.NextSlide | slider.js:164-186 | as evidently intended: the index advances and wraps to 0 at the end of a round, which reshuffles the list (same multiset) and rebuilds the slides; a listed effect is applied |
| LegacySlider.NextSlideIgnoresDraws | slider.js:164-186 | the index and the number of rebuilds do not depend on the random draws |
| LegacySlider.NextTimesWithinRound | slider.js:164-175 | within a round, `k` calls move the index `k` places with the order unchanged and no rebuild |
| LegacySlider.FullRound | slider.js:164-175 | from the first slide, as many calls as there are slides return to the first slide with exactly one reshuffle |
| LegacySlider.PrevSlide | slider.js:219-222 | ArrowLeft keeps the index in range |
| LegacySlider.PrevSlideStepsBack | slider.js:219-222 | ArrowLeft's net effect is one step back (the last slide from the first), and it reshuffles exactly when starting from the second slide or with a single slide |
| LegacySlider.Playlist | slider.js:98-102 | the pool is the local tracks followed by the remote ones (none when unset) |
| LegacySlider.AppliedVolume | slider.js:114 | the configured volume, or 0.7 when none is configured |
| LegacySlider.PlayNext | slider.js:112-119 | it throws exactly when the volume (or 0.7) lies outside `[0, 1]`; otherwise it plays the track at `musicIndex` at that volume and moves the index on, wrapping to 0 |
| LegacySlider.StartMusic | slider.js:73-126 | nothing plays when startup threw, without a music configuration or with an empty pool; otherwise it plays exactly when the volume is accepted, the playlist is a permutation of the pool (the pool itself when not shuffled), its first track plays at that volume and the index moves to the second |
| LegacySlider.PlayTimesTrack | slider.js:112-121 | with an accepted volume every play succeeds, and the `k`-th track played is `k` places on from the start, round the playlist |

## Left out

- `js/background.core.js` is not part of this model: it draws the decorative background and holds no slideshow state.
- Loading `config.json` and `captions.json` is left out. The parsed configuration and captions are inputs, with a value of the wrong type taken as missing. The exception is a truthy `keyboard` or `debug` setting that is not an object, such as `true`. The script reads it as present with an undefined `enabled`, and the input passes it as `KeyboardConfig(None)` or `DebugConfig(None)`. So `"keyboard": true` registers the first keyboard listener, as in the script.
- The styles and the reflows the scripts force are left out: the `url(...)` background, the `data-*` attributes, `offsetWidth`, and the caption fade-in class.
- Console logging is left out, and so is the rejection of `audio.play()`, which both players catch and discard.
- Looking up an effect name that is an `Object.prototype` key (such as `constructor`) is left out. The table is modelled as a plain map with no prototype, so such a name falls back to `fade`.
- The `delay` setting is an integer number of milliseconds. Fractional, `NaN` and infinite delays are left out.
- The modular player's `pause` and `play` events are modelled through `Music.ToggleMusic`, which sets the disc state directly. Pauses that come from the browser itself are left out.
- Music.PlayNextTrack assumes that the title and disc elements exist. The script throws at line 55 or 58 when either is missing, and that case is left out.
- Music.MusicName takes `decodeURIComponent` as the parameter `decode`. The `URIError` it throws on a malformed escape is left out.
- LegacySlider.PlayNext: when the volume setter throws, the source has already been set, but the model reports only the throw (`None`). The case of a missing audio element is left out.
- LegacySlider: the ArrowLeft key is modelled only in its corrected form (`LegacySlider.PrevSlide`). After the wrap defect below, it would move among slides that are no longer in the page.
- LegacySlider: the space key toggles the audio element the same way `Music.ToggleMusic` does, and it is not modelled again.
- LegacySlider: the class and opacity of each slide element are left out. `Show` tracks the index, the order, the effect last chosen and the rebuild count.
- LegacySlider.NextTimes uses the same draws on every call. By `LegacySlider.NextSlideIgnoresDraws`, the index and the rebuild count do not depend on them.
- Concurrency is left out: the asynchronous startup and the interleaving of the old script's `setInterval` with key presses. Events are modelled as a sequence of steps.

## Findings

| source | as written | input that shows it | evidently intended | confidence | as-written member | corrected member |
|---|---|---|---|---|---|---|
| slider.js:201 | `slides` is declared `const` at line 70, so the reassignment at line 201 throws a `TypeError`. The slides have already been rebuilt, `index` is left at `slides.length`, and every later `nextSlide` throws at line 166 because `slides[index]` is undefined. The slideshow stops after its first round. | two images with the second shown (`index` 1): the next tick throws and leaves `index` 2, and the tick after throws again | `slides` is refreshed after the rebuild, `index` returns to 0, and the slideshow goes on in the new order | high; not executed | LegacySlider.NextSlideAsWritten (shown by LegacySlider.AsWrittenWrapSticks and LegacySlider.AsWrittenTwoImages) | LegacySlider.NextSlide (with LegacySlider.FullRound) |
