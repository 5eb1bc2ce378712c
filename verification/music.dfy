/** The background music of the modular slideshow (`js/music.js`): a playlist taken
    from the configuration, optionally shuffled, played round and round; the title shown
    for each track; the volume setting; and the play/pause toggle with its spinning
    disc.

    The audio element is abstracted to the state the script reads and writes: its
    source, volume and `paused` flag. `decodeURIComponent` is a parameter `decode`. */
module Music {
  import opened JsBase
  import Text
  import Shuffle

  /** `config.music`: `sources` when it is an array, the truthiness of `shuffle`, and
      `volume` when it is a number. */
  datatype MusicConfig = MusicConfig(sources: Option<seq<string>>, shuffle: bool, volume: Option<real>)

  /** The loaded `config.json`, as far as the music engine reads it. */
  datatype LoadedConfig = LoadedConfig(music: Option<MusicConfig>)

  /** The playlist and the audio element. `volumeSetting` is the configured volume;
      `volume`, `src` and `paused` are the element's; `title` is the text of the title
      field; `discRunning` says whether the disc animation runs. */
  datatype Player = Player(
    tracks: seq<string>,
    volumeSetting: Option<real>,
    musicIndex: nat,
    src: string,
    title: string,
    volume: real,
    paused: bool,
    discRunning: bool)

  /** The volume of a fresh audio element. */
  const ElementDefaultVolume: real := 1.0

  /** `Math.min(1, Math.max(0, v))`. */
  function Clamp01(v: real): (r: real)
    ensures 0.0 <= r <= 1.0
    ensures 0.0 <= v <= 1.0 ==> r == v
    ensures v < 0.0 ==> r == 0.0
    ensures v > 1.0 ==> r == 1.0
  {
    var atLeast0 := if v > 0.0 then v else 0.0;
    if atLeast0 < 1.0 then atLeast0 else 1.0
  }

  /** Clamping a clamped volume changes nothing. */
  lemma ClampIdempotent(v: real)
    ensures Clamp01(Clamp01(v)) == Clamp01(v)
  {
  }

  /** The name of a track before decoding: the last path segment, with everything from
      its last `.` on dropped (`split('/').pop().split('.')`, one `pop()`, `join('.')`). */
  function RawMusicName(src: string): string
  {
    var segment := Text.Last(Text.Split(src, '/'));
    Text.Join(Text.DropLast(Text.Split(segment, '.')), '.')
  }

  /** What the raw name is: the part of the last path segment before its last dot, or
      nothing when the segment has no dot. When there is a dot, the raw name, the dot
      and an extension free of dots make up the segment exactly; the raw name never
      holds a `/`. */
  lemma RawMusicNameMeaning(src: string)
    ensures var segment := Text.AfterLast(src, '/');
      && RawMusicName(src) == Text.BeforeLast(segment, '.')
      && ('.' !in segment ==> RawMusicName(src) == "")
      && ('.' in segment ==> segment == RawMusicName(src) + "." + Text.AfterLast(segment, '.'))
      && '.' !in Text.AfterLast(segment, '.')
      && '/' !in RawMusicName(src)
  {
    var segment := Text.AfterLast(src, '/');
    Text.LastOfSplit(src, '/');
    Text.JoinDropLastOfSplit(segment, '.');
    Text.BeforeLastMeaning(segment, '.');
    Text.AfterLastMeaning(segment, '.');
    Text.AfterLastMeaning(src, '/');
    Text.PrefixLacks(segment, |Text.BeforeLast(segment, '.')|, '/');
  }

  /** `getMusicName(src)`: nothing for an empty source; otherwise the decoded raw name. */
  function MusicName(src: string, decode: string -> string): (name: string)
    ensures src == "" ==> name == ""
    ensures src != "" ==> name == decode(RawMusicName(src))
  {
    if src == "" then "" else decode(RawMusicName(src))
  }

  /** The configured list of sources, or nothing. */
  function ConfiguredTracks(config: Option<LoadedConfig>): seq<string>
  {
    if config.Some? && config.value.music.Some? && config.value.music.value.sources.Some?
    then config.value.music.value.sources.value
    else []
  }

  /** `musicSources[musicIndex % musicSources.length]`. */
  function TrackAt(tracks: seq<string>, i: nat): (t: string)
    requires |tracks| > 0
    ensures t in tracks && t == tracks[i % |tracks|]
  {
    tracks[i % |tracks|]
  }

  /** `playNextTrack`: nothing with an empty playlist; otherwise play the track at
      `musicIndex` (wrapping around the list), advance `musicIndex`, show the track's
      name, start the disc, and apply the configured volume, clamped to `[0, 1]`, when
      there is one. */
  function PlayNextTrack(p: Player, decode: string -> string): (p': Player)
    ensures |p.tracks| == 0 ==> p' == p
    ensures |p.tracks| > 0 ==>
      && p'.src == p.tracks[p.musicIndex % |p.tracks|]
      && p'.musicIndex == p.musicIndex + 1
      && p'.title == MusicName(p'.src, decode)
      && !p'.paused && p'.discRunning
      && p'.volume == (if p.volumeSetting.Some? then Clamp01(p.volumeSetting.value) else p.volume)
      && p'.tracks == p.tracks && p'.volumeSetting == p.volumeSetting
  {
    if |p.tracks| == 0 then p
    else
      var src := TrackAt(p.tracks, p.musicIndex);
      p.(
        src := src,
        musicIndex := p.musicIndex + 1,
        title := MusicName(src, decode),
        discRunning := true,
        volume := if p.volumeSetting.Some? then Clamp01(p.volumeSetting.value) else p.volume,
        paused := false)
  }

  /** The player's invariant: a non-empty playlist, the track playing is the one before
      `musicIndex`, the volume is in range, and the disc spins exactly while playing. */
  predicate Valid(p: Player)
  {
    && |p.tracks| > 0
    && p.musicIndex >= 1
    && p.src == p.tracks[(p.musicIndex - 1) % |p.tracks|]
    && 0.0 <= p.volume <= 1.0
    && p.discRunning == !p.paused
  }

  /** Startup. Nothing plays when the configuration did not load, the page has no audio
      element, or `music.sources` is missing, not an array, or empty. Otherwise the
      (possibly shuffled) copy of the sources becomes the playlist and its first track
      plays. */
  function Start(config: Option<LoadedConfig>, hasAudio: bool, picks: seq<nat>, decode: string -> string): (r: Option<Player>)
    requires Shuffle.ValidPicks(picks, |ConfiguredTracks(config)|)
    ensures r.None? <==> !hasAudio || |ConfiguredTracks(config)| == 0
    ensures r.Some? ==> Valid(r.value) && r.value.musicIndex == 1 && r.value.src == r.value.tracks[0]
    ensures r.Some? ==> multiset(r.value.tracks) == multiset(ConfiguredTracks(config))
    ensures r.Some? && !config.value.music.value.shuffle ==> r.value.tracks == ConfiguredTracks(config)
    ensures r.Some? ==> r.value.volumeSetting == config.value.music.value.volume
    ensures r.Some? ==> !r.value.paused && r.value.discRunning && r.value.title == MusicName(r.value.src, decode)
    ensures r.Some? ==> r.value.volume == (if r.value.volumeSetting.Some? then Clamp01(r.value.volumeSetting.value) else ElementDefaultVolume)
  {
    var sources := ConfiguredTracks(config);
    if config.None? || !hasAudio || |sources| == 0 then None
    else
      var music := config.value.music.value;
      var tracks := if music.shuffle then Shuffle.FisherYates(sources, picks) else sources;
      var idle := Player(tracks, music.volume, 0, "", "", ElementDefaultVolume, true, false);
      Some(PlayNextTrack(idle, decode))
  }

  /** The `ended` event: the next track plays. */
  function Ended(p: Player, decode: string -> string): (p': Player)
    requires Valid(p)
    ensures Valid(p')
    ensures p'.tracks == p.tracks && p'.musicIndex == p.musicIndex + 1
    ensures p'.src == p.tracks[p.musicIndex % |p.tracks|] && p'.title == MusicName(p'.src, decode)
    ensures !p'.paused && p'.discRunning
  {
    PlayNextTrack(p, decode)
  }

  /** `k` tracks ending in a row. */
  function EndedTimes(p: Player, k: nat, decode: string -> string): (p': Player)
    requires Valid(p)
    ensures Valid(p')
    decreases k
  {
    if k == 0 then p else EndedTimes(Ended(p, decode), k - 1, decode)
  }

  /** After `k` tracks have ended, `musicIndex` has moved on by `k` and the track playing
      is the one `k` places further round the playlist. */
  lemma {:induction false} EndedTimesTrack(p: Player, k: nat, decode: string -> string)
    requires Valid(p)
    ensures var q := EndedTimes(p, k, decode);
      && q.tracks == p.tracks
      && q.musicIndex == p.musicIndex + k
      && q.src == p.tracks[(p.musicIndex + k - 1) % |p.tracks|]
    decreases k
  {
    if k > 0 {
      EndedTimesTrack(Ended(p, decode), k - 1, decode);
    }
  }

  /** From startup, the `n`-th track played (counting from 0) is
      `tracks[n mod tracks.length]`. */
  lemma NthTrack(config: Option<LoadedConfig>, hasAudio: bool, picks: seq<nat>, decode: string -> string, n: nat)
    requires Shuffle.ValidPicks(picks, |ConfiguredTracks(config)|)
    requires hasAudio && |ConfiguredTracks(config)| > 0
    ensures Start(config, hasAudio, picks, decode).Some?
    ensures var p := Start(config, hasAudio, picks, decode).value;
      EndedTimes(p, n, decode).src == p.tracks[n % |p.tracks|]
  {
    EndedTimesTrack(Start(config, hasAudio, picks, decode).value, n, decode);
  }

  /** `__toggleMusic`: a paused element starts playing and the disc spins; a playing one
      pauses and the disc stops. */
  function ToggleMusic(p: Player): (p': Player)
    ensures p'.paused == !p.paused
    ensures p'.discRunning == !p'.paused
    ensures p' == p.(paused := p'.paused, discRunning := p'.discRunning)
  {
    if p.paused then p.(paused := false, discRunning := true)
    else p.(paused := true, discRunning := false)
  }

  /** Toggling twice gives back the player, as long as the disc agrees with it. */
  lemma ToggleMusicTwice(p: Player)
    requires Valid(p)
    ensures ToggleMusic(ToggleMusic(p)) == p
    ensures Valid(ToggleMusic(p))
  {
  }
}
