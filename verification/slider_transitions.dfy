/** The transition between two slides (`js/slider.transitions.js`): the table from
    effect names to animation classes, and the protocol by which a transition waits for
    both slides' `animationend` events before reporting completion.

    A run of `run(effectName, currentEl, nextEl, onDone)` is an explicit record: the
    two elements' classes and opacity, which of the two `animationend` listeners are
    still installed, the `finished` counter of the closure, and how many times `onDone`
    has been called. */
module SliderTransitions {
  import opened JsBase

  /** The incoming and outgoing animation classes of one effect. */
  datatype Mapping = Mapping(incoming: string, outgoing: string)

  /** The class every slide carries outside a transition. */
  const SlideClass: string := "slide"

  /** Number of animation completions a transition waits for. */
  const Needed: nat := 2

  /** The effect table. */
  const EffectClass: map<string, Mapping> := map[
    "fade"             := Mapping("fade-in", "fade-out"),
    "crossfade"        := Mapping("fade-in", "fade-out"),
    "slide-left"       := Mapping("slide-left", "push-left"),
    "slide-right"      := Mapping("slide-right", "push-right"),
    "zoom-in"          := Mapping("zoom-in", "fade-out"),
    "zoom-out"         := Mapping("zoom-out", "fade-out"),
    "kenburns"         := Mapping("kenburns", "fade-out"),
    "rotate"           := Mapping("rotate-in", "fade-out"),
    "blur-fade"        := Mapping("blur-fade", "fade-out"),
    "wipe-left"        := Mapping("wipe-left", "fade-out"),
    "wipe-right"       := Mapping("wipe-right", "fade-out"),
    "split-horizontal" := Mapping("split-horizontal", "fade-out"),
    "split-vertical"   := Mapping("split-vertical", "fade-out"),
    "flip-horizontal"  := Mapping("flip-horizontal", "fade-out"),
    "flip-vertical"    := Mapping("flip-vertical", "fade-out"),
    "cube-rotate"      := Mapping("cube-rotate", "fade-out"),
    "curtain-open"     := Mapping("curtain-open", "fade-out"),
    "checkerboard"     := Mapping("checkerboard", "fade-out"),
    "stripes"          := Mapping("stripes", "fade-out"),
    "book-open"        := Mapping("book-open", "fade-out"),
    "water-ripple"     := Mapping("water-ripple", "fade-out")
  ]

  /** `EFFECT_CLASS[effectName] || EFFECT_CLASS['fade']`: the effect's entry, or the
      `fade` entry for a name the table does not know. The lookup never fails, and both
      classes it yields are non-empty. */
  function Resolve(effectName: string): (m: Mapping)
    ensures m in EffectClass.Values
    ensures m.incoming != "" && m.outgoing != ""
    ensures effectName in EffectClass ==> m == EffectClass[effectName]
    ensures effectName !in EffectClass ==> m == EffectClass["fade"]
  {
    if effectName in EffectClass then EffectClass[effectName] else EffectClass["fade"]
  }

  /** An unknown name behaves exactly like `fade`. */
  lemma UnknownIsFade(effectName: string)
    requires effectName !in EffectClass
    ensures Resolve(effectName) == Resolve("fade") == Mapping("fade-in", "fade-out")
  {
  }

  /** Only the two sliding effects push the outgoing slide; every other known or unknown
      name fades it out. */
  lemma OutgoingFadesUnlessSliding(effectName: string)
    ensures Resolve(effectName).outgoing == "fade-out"
      <==> effectName != "slide-left" && effectName != "slide-right"
  {
  }

  /** Except for `fade`, `crossfade` and `rotate`, a known effect's incoming class is the
      effect's own name. */
  lemma IncomingNamesTheEffect(effectName: string)
    requires effectName in EffectClass
    ensures effectName !in {"fade", "crossfade", "rotate"} <==> Resolve(effectName).incoming == effectName
  {
  }

  /** A slide element as the transition sees it: its class list and its opacity
      (`'1'` shown, `'0'` hidden). The picture it shows is not touched here. */
  datatype SlideEl = SlideEl(classes: set<string>, opacity: nat, image: string)

  /** Where an `animationend` event comes from: one of the two slides, or some other
      element whose event bubbles to a slide (which the listener ignores). */
  datatype Target = NextTarget | CurrentTarget | OtherTarget

  /** A transition run. `Skipped` is a run that found an element missing: it called
      `onDone` at once and did nothing else. `Animating` holds the two slides, whether
      each `animationend` listener is still installed, the `finished` counter, and the
      number of `onDone` calls so far. */
  datatype Run =
    | Skipped(current: Option<SlideEl>, next: Option<SlideEl>)
    | Animating(cur: SlideEl, nxt: SlideEl, finished: nat, listenNext: bool, listenCurrent: bool, doneCalls: nat)

  /** How many times the run has called `onDone`. */
  function DoneCalls(r: Run): nat
  {
    if r.Skipped? then 1 else r.doneCalls
  }

  /** `clearEffectClasses`: back to the bare `slide` class. */
  function Cleared(el: SlideEl): SlideEl
  {
    el.(classes := {SlideClass})
  }

  /** `handleDone`: count one completion; at the second, hide the outgoing slide, reset
      both slides' classes and call `onDone`. */
  function HandleDone(r: Run): (r': Run)
    requires r.Animating?
    ensures r'.Animating? && r'.finished == r.finished + 1
    ensures r'.listenNext == r.listenNext && r'.listenCurrent == r.listenCurrent
    ensures r'.finished >= Needed ==> r'.cur.opacity == 0 && r'.cur.classes == {SlideClass} && r'.nxt.classes == {SlideClass}
    ensures r'.doneCalls == r.doneCalls + (if r'.finished >= Needed then 1 else 0)
    ensures r'.nxt.opacity == r.nxt.opacity && r'.nxt.image == r.nxt.image && r'.cur.image == r.cur.image
    ensures r'.finished < Needed ==> r' == r.(finished := r.finished + 1)
  {
    var f := r.finished + 1;
    if f >= Needed then
      r.(finished := f, cur := Cleared(r.cur.(opacity := 0)), nxt := Cleared(r.nxt), doneCalls := r.doneCalls + 1)
    else
      r.(finished := f)
  }

  /** `addAnim(el, cls)`: with an empty class it counts a completion at once; otherwise it
      installs the element's listener and adds the class. */
  function AddAnim(r: Run, t: Target, cls: string): (r': Run)
    requires r.Animating? && t != OtherTarget
  {
    if cls == "" then HandleDone(r)
    else if t == NextTarget then
      r.(listenNext := true, nxt := r.nxt.(classes := r.nxt.classes + {cls}))
    else
      r.(listenCurrent := true, cur := r.cur.(classes := r.cur.classes + {cls}))
  }

  /** `run` with the mapping already resolved. */
  function StartWith(m: Mapping, current: Option<SlideEl>, next: Option<SlideEl>): (r: Run)
  {
    if current.None? || next.None? then Skipped(current, next)
    else
      var c := Cleared(current.value).(opacity := 1);
      var n := Cleared(next.value).(opacity := 1);
      var r0 := Animating(c, n, 0, false, false, 0);
      AddAnim(AddAnim(r0, NextTarget, m.incoming), CurrentTarget, m.outgoing)
  }

  /** `run(effectName, currentEl, nextEl, onDone)`. */
  function Start(effectName: string, current: Option<SlideEl>, next: Option<SlideEl>): (r: Run)
    ensures current.None? || next.None? <==> r.Skipped?
    ensures r.Skipped? ==> r == Skipped(current, next) && DoneCalls(r) == 1
    ensures r.Animating? ==> r.listenNext && r.listenCurrent && r.finished == 0 && DoneCalls(r) == 0
    ensures r.Animating? ==>
      && r.nxt.classes == {SlideClass, Resolve(effectName).incoming}
      && r.cur.classes == {SlideClass, Resolve(effectName).outgoing}
      && r.nxt.opacity == 1 && r.cur.opacity == 1
      && r.nxt.image == next.value.image && r.cur.image == current.value.image
  {
    StartWith(Resolve(effectName), current, next)
  }

  /** One `animationend` event reaching the slides. A slide's listener handles only an
      event whose target is that slide, removes itself, and counts a completion; any
      other event changes nothing. */
  function Deliver(r: Run, t: Target): (r': Run)
  {
    match r
    case Skipped(_, _) => r
    case Animating(_, _, _, _, _, _) =>
      if t == NextTarget && r.listenNext then HandleDone(r.(listenNext := false))
      else if t == CurrentTarget && r.listenCurrent then HandleDone(r.(listenCurrent := false))
      else r
  }

  /** A sequence of `animationend` events, in order. */
  function DeliverAll(r: Run, events: seq<Target>): Run
    decreases |events|
  {
    if |events| == 0 then r else DeliverAll(Deliver(r, events[0]), events[1..])
  }

  /** Completions counted for one slot: 0 while its listener waits, 1 once it has fired. */
  function Fired(listening: bool): nat
  {
    if listening then 0 else 1
  }

  /** The consistency of an animating run once both listeners have been installed: the
      counter equals the number of listeners that have fired, `onDone` has been called
      once exactly when both have, and the slides' opacity and classes match that phase. */
  predicate Consistent(r: Run)
  {
    r.Animating? ==>
      && r.finished == Fired(r.listenNext) + Fired(r.listenCurrent)
      && r.doneCalls == (if r.finished >= Needed then 1 else 0)
      && r.nxt.opacity == 1
      && (r.doneCalls == 0 ==> r.cur.opacity == 1)
      && (r.doneCalls == 1 ==> r.cur.opacity == 0 && r.cur.classes == {SlideClass} && r.nxt.classes == {SlideClass})
  }

  /** A started run is consistent, whatever the mapping (empty classes included). */
  lemma StartWithConsistent(m: Mapping, current: Option<SlideEl>, next: Option<SlideEl>)
    ensures Consistent(StartWith(m, current, next))
    ensures var r := StartWith(m, current, next);
      r.Animating? ==> r.listenNext == (m.incoming != "") && r.listenCurrent == (m.outgoing != "")
  {
  }

  /** Delivering an event keeps a run consistent; the listener on the event's target is
      the only one that can go away. */
  lemma DeliverConsistent(r: Run, t: Target)
    requires Consistent(r)
    ensures var r' := Deliver(r, t);
      && Consistent(r')
      && r'.Animating? == r.Animating?
      && (r.Animating? ==> r'.listenNext == (r.listenNext && t != NextTarget))
      && (r.Animating? ==> r'.listenCurrent == (r.listenCurrent && t != CurrentTarget))
      && (r.Skipped? ==> r' == r)
  {
  }

  /** After a sequence of events, a listener is still installed exactly when it was and
      no event with its target arrived. */
  lemma {:induction false} DeliverAllListeners(r: Run, events: seq<Target>)
    requires Consistent(r)
    ensures var r' := DeliverAll(r, events);
      && Consistent(r')
      && r'.Animating? == r.Animating?
      && (r.Animating? ==> r'.listenNext == (r.listenNext && NextTarget !in events))
      && (r.Animating? ==> r'.listenCurrent == (r.listenCurrent && CurrentTarget !in events))
      && (r.Skipped? ==> r' == r)
    decreases |events|
  {
    if |events| > 0 {
      DeliverConsistent(r, events[0]);
      DeliverAllListeners(Deliver(r, events[0]), events[1..]);
      assert events == [events[0]] + events[1..];
    }
  }

  /** `onDone` is called at most once, whatever events arrive. */
  lemma DoneAtMostOnce(m: Mapping, current: Option<SlideEl>, next: Option<SlideEl>, events: seq<Target>)
    ensures DoneCalls(DeliverAll(StartWith(m, current, next), events)) <= 1
  {
    StartWithConsistent(m, current, next);
    DeliverAllListeners(StartWith(m, current, next), events);
  }

  /** With an element missing, `onDone` has been called exactly once, at the start, and
      no later event changes the run. */
  lemma MissingElementDoneOnce(effectName: string, current: Option<SlideEl>, next: Option<SlideEl>, events: seq<Target>)
    requires current.None? || next.None?
    ensures DeliverAll(Start(effectName, current, next), events) == Skipped(current, next)
    ensures DoneCalls(DeliverAll(Start(effectName, current, next), events)) == 1
  {
    DeliverAllListeners(Start(effectName, current, next), events);
  }

  /** For any mapping: with both elements present, `onDone` has been called (once)
      exactly when every slot whose class is non-empty has seen its `animationend`. */
  lemma DoneIffBothEnded(m: Mapping, current: SlideEl, next: SlideEl, events: seq<Target>)
    ensures DoneCalls(DeliverAll(StartWith(m, Some(current), Some(next)), events))
      == if (m.incoming == "" || NextTarget in events) && (m.outgoing == "" || CurrentTarget in events) then 1 else 0
  {
    StartWithConsistent(m, Some(current), Some(next));
    DeliverAllListeners(StartWith(m, Some(current), Some(next)), events);
  }

  /** For any effect name, with both slides present: `onDone` has been called (once)
      exactly when both slides have reported `animationend`; until then the outgoing
      slide stays visible, and afterwards it is hidden and both slides are back to the
      bare `slide` class while the incoming slide stays shown. */
  lemma TransitionCompletes(effectName: string, current: SlideEl, next: SlideEl, events: seq<Target>)
    ensures var r := DeliverAll(Start(effectName, Some(current), Some(next)), events);
      && r.Animating?
      && DoneCalls(r) == (if NextTarget in events && CurrentTarget in events then 1 else 0)
      && r.nxt.opacity == 1
      && (DoneCalls(r) == 0 ==> r.cur.opacity == 1)
      && (DoneCalls(r) == 1 ==> r.cur.opacity == 0 && r.cur.classes == {SlideClass} && r.nxt.classes == {SlideClass})
  {
    var m := Resolve(effectName);
    StartWithConsistent(m, Some(current), Some(next));
    DeliverAllListeners(StartWith(m, Some(current), Some(next)), events);
  }
}
