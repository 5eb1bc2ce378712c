/** The older single-file slideshow (`slider.js`): images found by probing numbered
    files, one slide element per image, a fixed list of effect names, a slideshow that
    reshuffles at the end of each round, and a playlist of local and remote tracks.

    Whether a file exists (the outcome of `fetch(path)`) is an oracle `probe`; the
    draws of `Math.random` are parameters. */
module LegacySlider {
  import opened JsBase
  import Text
  import Shuffle

  /** The image extensions tried, in order. */
  const Formats: seq<string> := ["jpg", "jpeg", "png", "webp", "gif"]

  /** The highest image number probed, and the highest track number probed. */
  const MaxImages: nat := 2000
  const MaxLocalTracks: nat := 500

  /** `images/${i}.${ext}`. */
  function ImagePath(i: nat, ext: string): string
  {
    "images/" + Text.NatToString(i) + "." + ext
  }

  /** `music/${i}.mp3`. */
  function MusicPath(i: nat): string
  {
    "music/" + Text.NatToString(i) + ".mp3"
  }

  /** The first of the formats from position `f` on for which image `i` exists. */
  function FirstFormatFrom(probe: string -> bool, i: nat, f: nat): (r: Option<string>)
    ensures r.Some? ==> r.value in Formats && probe(ImagePath(i, r.value))
    decreases |Formats| - f
  {
    if f >= |Formats| then None
    else if probe(ImagePath(i, Formats[f])) then Some(Formats[f])
    else FirstFormatFrom(probe, i, f + 1)
  }

  /** The format under which image `i` is found, if any. */
  function FirstFormat(probe: string -> bool, i: nat): Option<string>
  {
    FirstFormatFrom(probe, i, 0)
  }

  /** No format exists for image `i` exactly when the search finds none. */
  lemma {:induction false} FirstFormatNone(probe: string -> bool, i: nat, f: nat)
    requires f <= |Formats|
    ensures FirstFormatFrom(probe, i, f).None? <==> forall g :: f <= g < |Formats| ==> !probe(ImagePath(i, Formats[g]))
    decreases |Formats| - f
  {
    if f < |Formats| {
      FirstFormatNone(probe, i, f + 1);
    }
  }

  /** Image `i` is found, and `path` is its path under the first format that exists. */
  predicate FoundAs(probe: string -> bool, i: nat, path: string)
  {
    FirstFormat(probe, i).Some? && path == ImagePath(i, FirstFormat(probe, i).value)
  }

  /** `detectImages`: for `i = 1, 2, ...` up to 2000, the path of image `i` under the
      first format that exists, stopping at the first number with none. The result is
      the paths of images `1..k` for consecutive `k`, each under its first existing
      format, and when the probe stopped early, image `k + 1` exists under no format. */
  method DetectImages(probe: string -> bool) returns (list: seq<string>)
    ensures |list| <= MaxImages
    ensures forall k :: 0 <= k < |list| ==> FoundAs(probe, k + 1, list[k])
    ensures |list| < MaxImages ==> FirstFormat(probe, |list| + 1).None?
  {
    list := [];
    var i := 1;
    while i <= MaxImages
      invariant 1 <= i <= MaxImages + 1
      invariant |list| == i - 1
      invariant forall k :: 0 <= k < |list| ==> FoundAs(probe, k + 1, list[k])
      decreases MaxImages + 1 - i
    {
      var found: Option<string> := None;
      var f := 0;
      while f < |Formats| && found.None?
        invariant 0 <= f <= |Formats|
        invariant found.None? ==> FirstFormat(probe, i) == FirstFormatFrom(probe, i, f)
        invariant found.Some? ==> FirstFormat(probe, i) == found
        decreases |Formats| - f
      {
        if probe(ImagePath(i, Formats[f])) {
          found := Some(Formats[f]);
        }
        f := f + 1;
      }
      if found.None? {
        return;
      }
      assert FirstFormat(probe, |list| + 1) == found;
      list := list + [ImagePath(i, found.value)];
      i := i + 1;
    }
  }

  /** The local tracks among `music/1.mp3 .. music/n.mp3`, in order. */
  function LocalTracksUpTo(probe: string -> bool, n: nat): (tracks: seq<string>)
    decreases n
  {
    if n == 0 then []
    else LocalTracksUpTo(probe, n - 1) + (if probe(MusicPath(n)) then [MusicPath(n)] else [])
  }

  /** What the local tracks are: a path is listed exactly when it is one of the probed
      numbered tracks and it exists. */
  lemma {:induction false} LocalTracksMembers(probe: string -> bool, n: nat, p: string)
    ensures p in LocalTracksUpTo(probe, n) <==> exists k :: 1 <= k <= n && p == MusicPath(k) && probe(MusicPath(k))
    decreases n
  {
    if n > 0 {
      LocalTracksMembers(probe, n - 1, p);
      if p == MusicPath(n) && probe(MusicPath(n)) {
        assert p in LocalTracksUpTo(probe, n);
      }
    }
  }

  /** `loadLocalMusicFiles`: every existing track from 1 to 500, in order, without
      stopping at gaps. */
  method LoadLocalMusic(probe: string -> bool) returns (local: seq<string>)
    ensures local == LocalTracksUpTo(probe, MaxLocalTracks)
  {
    local := [];
    var i := 1;
    while i <= MaxLocalTracks
      invariant 1 <= i <= MaxLocalTracks + 1
      invariant local == LocalTracksUpTo(probe, i - 1)
      decreases MaxLocalTracks + 1 - i
    {
      var path := MusicPath(i);
      if probe(path) {
        local := local + [path];
      }
      i := i + 1;
    }
  }

  /** The effect classes the old slideshow picks from. */
  const AllTransitions: seq<string> := [
    "fade-in", "slide-left", "slide-right", "push-left", "push-right",
    "zoom-in", "zoom-out", "wipe-left", "wipe-right", "split-horizontal",
    "split-vertical", "flip-horizontal", "flip-vertical", "cube-rotate", "curtain-open",
    "checkerboard", "random-stripes", "page-turn", "book-open", "water-ripple",
    "glass-distort", "ken-burns"]

  /** The slideshow's state: the image order, the number of slide elements (fixed once
      created), the index of the slide shown, the effect last applied, and how many
      times the slides have been rebuilt for a new order. */
  datatype Show = Show(imageList: seq<string>, slideCount: nat, index: int, effect: Option<string>, rebuilds: nat)

  predicate Valid(st: Show)
  {
    && |st.imageList| == st.slideCount > 0
    && 0 <= st.index < st.slideCount
  }

  /** Startup: the detected list, shuffled unless `images.shuffle` is `false`, one slide
      per image appended to the `#slider` element (`hasSlider` says whether the page has
      one), the first one shown. Appending to a missing element throws, and with no
      images at all `slides[0]` is undefined and startup throws. */
  function StartShow(detected: seq<string>, hasSlider: bool, shuffleSetting: Option<bool>, picks: seq<nat>): (r: Option<Show>)
    requires Shuffle.ValidPicks(picks, |detected|)
    ensures r.None? <==> |detected| == 0 || !hasSlider
    ensures r.Some? ==> Valid(r.value) && r.value.index == 0 && r.value.rebuilds == 0
    ensures r.Some? ==> multiset(r.value.imageList) == multiset(detected)
    ensures r.Some? && shuffleSetting == Some(false) ==> r.value.imageList == detected
  {
    if |detected| == 0 || !hasSlider then None
    else
      var order := if shuffleSetting != Some(false) then Shuffle.FisherYates(detected, picks) else detected;
      Some(Show(order, |detected|, 0, None, 0))
  }

  /** `setInterval(nextSlide, config.delay ?? 5000)`, unless `autoplay` is `false`: the
      period of the timer, if one is started. */
  function AutoplayPeriod(autoplay: Option<bool>, delay: Option<int>): (period: Option<int>)
    ensures period.None? <==> autoplay == Some(false)
    ensures period.Some? && delay.None? ==> period.value == 5000
    ensures period.Some? && delay.Some? ==> period.value == delay.value
  {
    if autoplay == Some(false) then None
    else Some(if delay.Some? then delay.value else 5000)
  }

  /** The outcome of a call that may throw: the state reached, and whether the call
      completed or threw there. */
  datatype Outcome = Done(show: Show) | Threw(show: Show)

  /** `nextSlide` as written. The slide at `index` is hidden (a missing one makes the
      call throw); the index advances; at the end of the round the list is reshuffled
      and the slides rebuilt, but assigning the refreshed list to the constant `slides`
      throws, so the index is left one past the last slide. Otherwise a random effect
      is applied to the next slide. */
  function NextSlideAsWritten(st: Show, picks: seq<nat>, choice: nat): (r: Outcome)
    requires Shuffle.ValidPicks(picks, |st.imageList|) && choice < |AllTransitions|
    ensures r.show.slideCount == st.slideCount
    ensures r.Done? <==> 0 <= st.index && st.index + 1 < st.slideCount
    ensures r.Done? ==> r.show == st.(index := st.index + 1, effect := r.show.effect) && r.show.effect.Some? && r.show.effect.value in AllTransitions
    ensures !(0 <= st.index < st.slideCount) ==> r == Threw(st)
    ensures 0 <= st.index && st.index + 1 == st.slideCount ==>
      && r.show.index == st.slideCount && r.show.rebuilds == st.rebuilds + 1 && r.show.effect == st.effect
      && multiset(r.show.imageList) == multiset(st.imageList)
  {
    if !(0 <= st.index < st.slideCount) then Threw(st)
    else
      var i := st.index + 1;
      if i >= st.slideCount then
        Threw(st.(imageList := Shuffle.FisherYates(st.imageList, picks), index := i, rebuilds := st.rebuilds + 1))
      else
        Done(st.(index := i, effect := Some(AllTransitions[choice])))
  }

  /** The defect: from the last slide, `nextSlide` throws and leaves the index at the
      number of slides; from there every later call throws at once and changes nothing,
      so the slideshow never moves again. */
  lemma AsWrittenWrapSticks(st: Show, picks: seq<nat>, choice: nat, picks2: seq<nat>, choice2: nat)
    requires Valid(st) && st.index == st.slideCount - 1
    requires Shuffle.ValidPicks(picks, |st.imageList|) && choice < |AllTransitions|
    requires Shuffle.ValidPicks(picks2, |st.imageList|) && choice2 < |AllTransitions|
    ensures var r := NextSlideAsWritten(st, picks, choice);
      && r.Threw? && r.show.index == st.slideCount && !Valid(r.show)
      && NextSlideAsWritten(r.show, picks2, choice2) == Threw(r.show)
  {
  }

  /** A concrete case: two images, the second one shown. */
  lemma AsWrittenTwoImages()
    ensures NextSlideAsWritten(Show(["images/1.jpg", "images/2.jpg"], 2, 1, None, 0), [0, 0], 0).Threw?
    ensures NextSlideAsWritten(Show(["images/1.jpg", "images/2.jpg"], 2, 1, None, 0), [0, 0], 0).show.index == 2
  {
  }

  /** `nextSlide` as evidently intended (with `slides` refreshed after the rebuild): the
      index advances, wrapping to 0 at the end of the round, where the list is
      reshuffled and the slides rebuilt; a random effect is applied to the slide shown. */
  function NextSlide(st: Show, picks: seq<nat>, choice: nat): (st': Show)
    requires Valid(st) && Shuffle.ValidPicks(picks, |st.imageList|) && choice < |AllTransitions|
    ensures Valid(st') && st'.slideCount == st.slideCount
    ensures multiset(st'.imageList) == multiset(st.imageList)
    ensures st.index + 1 < st.slideCount ==> st'.index == st.index + 1 && st'.imageList == st.imageList && st'.rebuilds == st.rebuilds
    ensures st.index + 1 == st.slideCount ==> st'.index == 0 && st'.rebuilds == st.rebuilds + 1
    ensures st'.effect.Some? && st'.effect.value in AllTransitions
  {
    var i := st.index + 1;
    var st1 := if i >= st.slideCount
      then st.(imageList := Shuffle.FisherYates(st.imageList, picks), index := 0, rebuilds := st.rebuilds + 1)
      else st.(index := i);
    st1.(effect := Some(AllTransitions[choice]))
  }

  /** The index and the number of rebuilds do not depend on the random draws. */
  lemma NextSlideIgnoresDraws(st: Show, p1: seq<nat>, c1: nat, p2: seq<nat>, c2: nat)
    requires Valid(st)
    requires Shuffle.ValidPicks(p1, |st.imageList|) && c1 < |AllTransitions|
    requires Shuffle.ValidPicks(p2, |st.imageList|) && c2 < |AllTransitions|
    ensures NextSlide(st, p1, c1).index == NextSlide(st, p2, c2).index
    ensures NextSlide(st, p1, c1).rebuilds == NextSlide(st, p2, c2).rebuilds
  {
  }

  /** `k` calls of `nextSlide` with the given draws. */
  function NextTimes(st: Show, k: nat, picks: seq<nat>, choice: nat): (st': Show)
    requires Valid(st) && Shuffle.ValidPicks(picks, |st.imageList|) && choice < |AllTransitions|
    ensures Valid(st') && st'.slideCount == st.slideCount
    decreases k
  {
    if k == 0 then st
    else
      var before := NextTimes(st, k - 1, picks, choice);
      NextSlide(before, picks, choice)
  }

  /** Within a round, `k` calls move the index `k` places and rebuild nothing. */
  lemma {:induction false} NextTimesWithinRound(st: Show, k: nat, picks: seq<nat>, choice: nat)
    requires Valid(st) && Shuffle.ValidPicks(picks, |st.imageList|) && choice < |AllTransitions|
    requires st.index + k < st.slideCount
    ensures NextTimes(st, k, picks, choice).index == st.index + k
    ensures NextTimes(st, k, picks, choice).rebuilds == st.rebuilds
    ensures NextTimes(st, k, picks, choice).imageList == st.imageList
    decreases k
  {
    if k > 0 {
      NextTimesWithinRound(st, k - 1, picks, choice);
    }
  }

  /** A full round: from the first slide, as many calls as there are slides come back to
      the first slide, having reshuffled and rebuilt exactly once. */
  lemma FullRound(st: Show, picks: seq<nat>, choice: nat)
    requires Valid(st) && Shuffle.ValidPicks(picks, |st.imageList|) && choice < |AllTransitions|
    requires st.index == 0
    ensures NextTimes(st, st.slideCount, picks, choice).index == 0
    ensures NextTimes(st, st.slideCount, picks, choice).rebuilds == st.rebuilds + 1
  {
    NextTimesWithinRound(st, st.slideCount - 1, picks, choice);
  }

  /** The ArrowLeft handler: `index = (index - 2 + slides.length) % slides.length`, then
      `nextSlide`. */
  function PrevSlide(st: Show, picks: seq<nat>, choice: nat): (st': Show)
    requires Valid(st) && Shuffle.ValidPicks(picks, |st.imageList|) && choice < |AllTransitions|
    ensures Valid(st')
  {
    var back := Rem(st.index - 2 + st.slideCount, st.slideCount);
    NextSlide(st.(index := back), picks, choice)
  }

  /** ArrowLeft's net effect is one step back, to the last slide from the first; it
      passes through the end of a round, reshuffling the list, exactly when it starts
      from the second slide or there is only one slide. */
  lemma PrevSlideStepsBack(st: Show, picks: seq<nat>, choice: nat)
    requires Valid(st) && Shuffle.ValidPicks(picks, |st.imageList|) && choice < |AllTransitions|
    ensures PrevSlide(st, picks, choice).index == if st.index == 0 then st.slideCount - 1 else st.index - 1
    ensures PrevSlide(st, picks, choice).rebuilds == st.rebuilds + (if st.index == 1 || st.slideCount == 1 then 1 else 0)
  {
    var n := st.slideCount;
    var i := st.index;
    if n >= 2 {
      if i <= 1 {
        ModBetween(i - 2 + n, n, 0);
      } else {
        ModBetween(i - 2 + n, n, 1);
      }
    }
  }

  /** The old playlist: local tracks, then the configured remote ones (`?? []`). */
  function Playlist(local: seq<string>, remote: Option<seq<string>>): (playlist: seq<string>)
    ensures |playlist| == |local| + (if remote.Some? then |remote.value| else 0)
    ensures playlist[..|local|] == local
    ensures remote.Some? ==> playlist[|local|..] == remote.value
    ensures remote.None? ==> playlist == local
  {
    local + (if remote.Some? then remote.value else [])
  }

  /** `config.music` of the old script: `remoteSources` (when present), the truthiness of
      `shuffle`, and `volume` (when not `null` or `undefined`). */
  datatype LegacyMusicConfig = LegacyMusicConfig(remoteSources: Option<seq<string>>, shuffle: bool, volume: Option<real>)

  /** The old player: its playlist, the configured volume, the index of the next track,
      and the audio element's source and volume. */
  datatype LegacyPlayer = LegacyPlayer(playlist: seq<string>, volumeSetting: Option<real>, musicIndex: int, src: string, volume: real)

  predicate PlayerValid(p: LegacyPlayer)
  {
    |p.playlist| > 0 && 0 <= p.musicIndex < |p.playlist|
  }

  /** The volume used when the configuration names none. */
  const LegacyDefaultVolume: real := 0.7

  /** `config.music.volume ?? 0.7`: the volume `playNext` assigns. */
  function AppliedVolume(setting: Option<real>): (v: real)
    ensures setting.Some? ==> v == setting.value
    ensures setting.None? ==> v == LegacyDefaultVolume
  {
    if setting.Some? then setting.value else LegacyDefaultVolume
  }

  /** `playNext`: set the source to the track at `musicIndex` and the volume to the
      configured one (`?? 0.7`), then move `musicIndex` round the playlist. The audio
      element refuses a volume outside `[0, 1]` by throwing, before anything else
      changes but the source: `None`. */
  function PlayNext(p: LegacyPlayer): (r: Option<LegacyPlayer>)
    requires PlayerValid(p)
    ensures r.Some? <==> 0.0 <= AppliedVolume(p.volumeSetting) <= 1.0
    ensures r.Some? ==>
      && PlayerValid(r.value)
      && r.value.volume == AppliedVolume(p.volumeSetting)
      && r.value.src == p.playlist[p.musicIndex]
      && r.value.musicIndex == (if p.musicIndex + 1 == |p.playlist| then 0 else p.musicIndex + 1)
      && r.value.playlist == p.playlist && r.value.volumeSetting == p.volumeSetting
  {
    var v := AppliedVolume(p.volumeSetting);
    if !(0.0 <= v <= 1.0) then None
    else
      var next := (p.musicIndex + 1) % |p.playlist|;
      ModStep(p.musicIndex, |p.playlist|);
      Some(p.(src := p.playlist[p.musicIndex], volume := v, musicIndex := next))
  }

  /** `(i + 1) % n` for `i` in `[0, n)`: the next index, wrapping to 0. */
  lemma ModStep(i: int, n: int)
    requires 0 <= i < n
    ensures (i + 1) % n == if i + 1 == n then 0 else i + 1
  {
    if i + 1 == n {
      ModBetween(i + 1, n, 1);
    } else {
      ModBetween(i + 1, n, 0);
    }
  }

  /** `startMusic`, reached only once startup (`show`, the result of `StartShow`) has
      not thrown: nothing without a music configuration or with an empty pool;
      otherwise the pool (shuffled if configured) is the playlist and its first track
      plays; `None` also when that first `playNext` throws on the volume. */
  function StartMusic(show: Option<Show>, music: Option<LegacyMusicConfig>, local: seq<string>, picks: seq<nat>): (r: Option<LegacyPlayer>)
    requires music.Some? ==> Shuffle.ValidPicks(picks, |Playlist(local, music.value.remoteSources)|)
    ensures show.None? || music.None? ==> r.None?
    ensures music.Some? && |Playlist(local, music.value.remoteSources)| == 0 ==> r.None?
    ensures show.Some? && music.Some? && |Playlist(local, music.value.remoteSources)| > 0 ==>
      (r.Some? <==> 0.0 <= AppliedVolume(music.value.volume) <= 1.0)
    ensures r.Some? ==> PlayerValid(r.value) && multiset(r.value.playlist) == multiset(Playlist(local, music.value.remoteSources))
    ensures r.Some? && !music.value.shuffle ==> r.value.playlist == Playlist(local, music.value.remoteSources)
    ensures r.Some? ==>
      && r.value.src == r.value.playlist[0]
      && r.value.volume == AppliedVolume(music.value.volume)
      && r.value.musicIndex == (if |r.value.playlist| == 1 then 0 else 1)
  {
    if show.None? || music.None? then None
    else
      var pool := Playlist(local, music.value.remoteSources);
      if |pool| == 0 then None
      else
        var playlist := if music.value.shuffle then Shuffle.FisherYates(pool, picks) else pool;
        PlayNext(LegacyPlayer(playlist, music.value.volume, 0, "", 1.0))
  }

  /** `k` tracks played in a row, as long as none throws. */
  function PlayTimes(p: LegacyPlayer, k: nat): (r: Option<LegacyPlayer>)
    requires PlayerValid(p)
    ensures r.Some? ==> PlayerValid(r.value) && r.value.playlist == p.playlist && r.value.volumeSetting == p.volumeSetting
    decreases k
  {
    if k == 0 then Some(p)
    else match PlayTimes(p, k - 1)
      case None => None
      case Some(q) => PlayNext(q)
  }

  /** With a volume the element accepts, every play succeeds, and the `k`-th track
      played (counting from 0) is the one `k` places on from the start, wrapping round
      the playlist. */
  lemma {:induction false} PlayTimesTrack(p: LegacyPlayer, k: nat)
    requires PlayerValid(p)
    requires 0.0 <= AppliedVolume(p.volumeSetting) <= 1.0
    ensures PlayTimes(p, k).Some?
    ensures PlayTimes(p, k).value.musicIndex == (p.musicIndex + k) % |p.playlist|
    ensures k > 0 ==> PlayTimes(p, k).value.src == p.playlist[(p.musicIndex + k - 1) % |p.playlist|]
    decreases k
  {
    var n := |p.playlist|;
    if k == 0 {
      ModBetween(p.musicIndex, n, 0);
    } else {
      PlayTimesTrack(p, k - 1);
      ModAddOne(p.musicIndex + k - 1, n);
    }
  }
}
