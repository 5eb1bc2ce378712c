/** Helpers of the modular slideshow (`js/slider.utils.js`): the image list built from
    the configuration, caption lookup, choice of a transition name, and the text of the
    diagnostic overlay. */
module SliderUtils {
  import opened JsBase
  import Text

  /** One image of the catalog: its ordinal in the configured list, the file name shown
      in the overlay and used as the caption key, and the locator itself. */
  datatype ImageEntry = ImageEntry(index: nat, filename: string, src: string)

  /** `config.images`: `sources` is `None` when missing or not an array; `shuffle` is the
      truthiness of `images.shuffle`. */
  datatype ImagesConfig = ImagesConfig(sources: Option<seq<string>>, shuffle: bool)

  /** One entry of the captions document. Absent fields are the empty string, which
      JavaScript's `||` treats exactly like a missing field. */
  datatype Caption = Caption(title: string, description: string, author: string, date: string)

  /** The overlay element's state: whether it is displayed, and its text. */
  datatype DebugView = DebugView(visible: bool, text: string)

  /** The effect used when no list of effects is available. */
  const DefaultEffect: string := "fade"

  /** `parts[parts.length - 1]` of `src.split('/')`: the text after the last `/`, or the
      whole locator when it has none. */
  function FileName(src: string): (name: string)
    ensures name == Text.AfterLast(src, '/')
    ensures '/' !in name
    ensures '/' !in src ==> name == src
  {
    Text.LastOfSplit(src, '/');
    Text.AfterLastMeaning(src, '/');
    Text.Last(Text.Split(src, '/'))
  }

  /** The configured list of image locators, or the empty list when `images` or
      `images.sources` is missing or not an array. */
  function ConfiguredSources(images: Option<ImagesConfig>): seq<string>
  {
    if images.Some? && images.value.sources.Some? then images.value.sources.value else []
  }

  /** `buildImageListFromConfig`: one entry per configured locator, in order, numbered
      from 0. */
  function BuildImageList(images: Option<ImagesConfig>): (list: seq<ImageEntry>)
    ensures images.None? || images.value.sources.None? ==> list == []
    ensures |list| == |ConfiguredSources(images)|
    ensures forall i :: 0 <= i < |list| ==>
      && list[i].index == i
      && list[i].src == ConfiguredSources(images)[i]
      && list[i].filename == Text.AfterLast(ConfiguredSources(images)[i], '/')
  {
    var sources := ConfiguredSources(images);
    seq(|sources|, i requires 0 <= i < |sources| => ImageEntry(i, FileName(sources[i]), sources[i]))
  }

  /** `getCaptionForFilename`: nothing without a captions document or a file name;
      otherwise the document's entry for that name, if there is one. */
  function GetCaptionForFilename(captions: Option<map<string, Caption>>, filename: string): (r: Option<Caption>)
    ensures r.Some? <==> captions.Some? && filename != "" && filename in captions.value
    ensures r.Some? ==> r.value == captions.value[filename]
  {
    if captions.None? || filename == "" then None
    else if filename in captions.value then Some(captions.value[filename])
    else None
  }

  /** The list of effects the controller draws from: `config.transitions` when it is an
      array, otherwise just the default effect. */
  function AvailableTransitions(transitions: Option<seq<string>>): (available: seq<string>)
    ensures transitions.None? ==> available == [DefaultEffect]
    ensures transitions.Some? ==> available == transitions.value
  {
    match transitions
    case Some(list) => list
    case None => [DefaultEffect]
  }

  /** `pickTransitionName`. `randomTransitions` is `Some(false)` only when the configured
      value is the boolean `false`; `choice` is the index `Math.random` would produce. */
  function PickTransitionName(randomTransitions: Option<bool>, available: seq<string>, choice: nat): (name: string)
    requires |available| == 0 || choice < |available|
    ensures |available| == 0 ==> name == DefaultEffect
    ensures |available| > 0 ==> name in available
    ensures |available| > 0 && randomTransitions == Some(false) ==> name == available[0]
  {
    if |available| == 0 then DefaultEffect
    else if randomTransitions == Some(false) then available[0]
    else available[choice]
  }

  /** With random selection on, every available effect is the pick of some draw. */
  lemma PickCanReachEvery(randomTransitions: Option<bool>, available: seq<string>, name: string)
    requires randomTransitions != Some(false) && name in available
    ensures exists choice: nat :: choice < |available| && PickTransitionName(randomTransitions, available, choice) == name
  {
    var k :| 0 <= k < |available| && available[k] == name;
    assert PickTransitionName(randomTransitions, available, k) == name;
  }

  /** The overlay's three lines. */
  function DebugLines(img: ImageEntry, effectName: string): seq<string>
  {
    ["Index: " + Text.NatToString(img.index), "File: " + img.filename, "Effect: " + effectName]
  }

  /** The overlay's text, the three lines joined by newlines. */
  function DebugText(img: ImageEntry, effectName: string): string
  {
    Text.Join(DebugLines(img, effectName), '\n')
  }

  /** Reading the overlay back: when neither the file name nor the effect name holds a
      newline, the text splits into exactly its three lines, and the ordinal can be read
      back from the first. */
  lemma DebugTextReadsBack(img: ImageEntry, effectName: string)
    requires '\n' !in img.filename && '\n' !in effectName
    ensures var lines := Text.Split(DebugText(img, effectName), '\n');
      && lines == DebugLines(img, effectName)
      && |lines[0]| > 7 && lines[0][..7] == "Index: "
      && Text.AllDigits(lines[0][7..])
      && Text.ParseNat(lines[0][7..]) == img.index
  {
    var lines := DebugLines(img, effectName);
    var digits := Text.NatToString(img.index);
    assert lines[0][7..] == digits;
    assert '\n' !in digits;
    ConcatFree("Index: ", digits, '\n');
    ConcatFree("File: ", img.filename, '\n');
    ConcatFree("Effect: ", effectName, '\n');
    Text.SplitJoin(lines, '\n');
    Text.ParseNatToString(img.index);
  }

  /** A character occurs in a concatenation exactly when it occurs in one of the parts. */
  lemma ConcatFree(a: string, b: string, c: char)
    ensures c in a + b <==> c in a || c in b
  {
    assert multiset(a + b) == multiset(a) + multiset(b);
    assert c in a + b <==> c in multiset(a + b);
  }

  /** `updateDebugOverlay`. `view` is `None` when the overlay element is missing, which
      leaves nothing to update. When disabled, or with no image, the overlay is hidden
      and its text left as it was; otherwise it is shown with the image's ordinal and
      file name and the effect name. */
  function UpdateDebugOverlay(view: Option<DebugView>, enabled: bool, img: Option<ImageEntry>, effectName: string): (r: Option<DebugView>)
    ensures view.None? ==> r.None?
    ensures view.Some? ==> r.Some? && r.value.visible == (enabled && img.Some?)
    ensures view.Some? && !r.value.visible ==> r.value.text == view.value.text
    ensures view.Some? && r.value.visible ==> r.value.text == DebugText(img.value, effectName)
  {
    match view
    case None => None
    case Some(v) =>
      if !enabled || img.None? then Some(v.(visible := false))
      else Some(DebugView(true, DebugText(img.value, effectName)))
  }
}
