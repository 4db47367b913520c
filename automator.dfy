/** `GameAutomator` (main.py): three independently toggled detectors polled
    over captured frames of one window, and the coordinates of the clicks
    they post to it. */
module Automator {
  import opened Imaging
  import opened ImageProcessor
  import opened Arithmetic

  /** A registered fixed-position template: `{'img': tpl, 'w': w, 'h': h}`. */
  datatype FixedTemplate = FixedTemplate(img: Gray, w: nat, h: nat)

  /** The three detectors, in the order an iteration checks them. */
  datatype Detector = Spinning | FixedGem | RestartBtn

  const CheckOrder: seq<Detector> := [Spinning, FixedGem, RestartBtn]

  /** The keys under which the fixed detectors look up their templates. */
  const FixedGemName: string := "fixed_gem"
  const RestartBtnName: string := "restart_btn"

  /** The detector flags and the running flag, as one value. */
  datatype Flags = Flags(enableSpinning: bool, enableStatic: bool, enableRestart: bool, isRunning: bool)

  /** The flags right after construction. */
  const InitialFlags: Flags := Flags(false, false, false, true)

  function Enabled(f: Flags, d: Detector): bool
  {
    match d
    case Spinning => f.enableSpinning
    case FixedGem => f.enableStatic
    case RestartBtn => f.enableRestart
  }

  /** The four hotkey callbacks: F1, F2 and F3 toggle a detector, Esc stops. */
  datatype Command = Toggle(detector: Detector) | StopAll

  /** The effect of one callback on the flags. */
  function Apply(f: Flags, c: Command): (g: Flags)
    ensures g.isRunning ==> f.isRunning
    ensures c.StopAll? ==> !g.isRunning
    ensures c.Toggle? ==> g.isRunning == f.isRunning
  {
    match c
    case Toggle(Spinning) => f.(enableSpinning := !f.enableSpinning)
    case Toggle(FixedGem) => f.(enableStatic := !f.enableStatic)
    case Toggle(RestartBtn) => f.(enableRestart := !f.enableRestart)
    case StopAll => f.(isRunning := false)
  }

  /** A toggle flips its own detector's flag and leaves the other two flags
      and the running flag as they were. */
  lemma ToggleFlipsOnlyItsFlag(f: Flags, d: Detector)
    ensures forall e :: Enabled(Apply(f, Toggle(d)), e) == (if e == d then !Enabled(f, e) else Enabled(f, e))
    ensures Apply(f, Toggle(d)).isRunning == f.isRunning
  {
  }

  /** Toggling the same detector twice restores the original flags. */
  lemma ToggleTwiceRestores(f: Flags, d: Detector)
    ensures Apply(Apply(f, Toggle(d)), Toggle(d)) == f
  {
  }

  /** A sequence of callbacks, applied in order. Toggles alone never change
      the running flag. */
  function ApplyAll(f: Flags, cs: seq<Command>): (r: Flags)
    ensures StopAll !in cs ==> r.isRunning == f.isRunning
    decreases |cs|
  {
    if cs == [] then f
    else
      assert StopAll !in cs ==> StopAll !in cs[1..];
      ApplyAll(Apply(f, cs[0]), cs[1..])
  }

  /** No callback sets the running flag back: once stopped, always stopped. */
  lemma {:induction false} NeverRestarts(f: Flags, cs: seq<Command>)
    ensures ApplyAll(f, cs).isRunning ==> f.isRunning
    decreases |cs|
  {
    if cs != [] {
      NeverRestarts(Apply(f, cs[0]), cs[1..]);
    }
  }

  /** After any sequence containing a stop, the automator is stopped. */
  lemma {:induction false} StopIsFinal(f: Flags, cs: seq<Command>)
    requires StopAll in cs
    ensures !ApplyAll(f, cs).isRunning
    decreases |cs|
  {
    if cs[0] == StopAll {
      NeverRestarts(Apply(f, cs[0]), cs[1..]);
    } else {
      assert StopAll in cs[1..];
      StopIsFinal(Apply(f, cs[0]), cs[1..]);
    }
  }

  // ---------------------------------------------------------------------------
  // Template registration

  /** The templates `__init__` registers from `tm_targets` (name, path) in
      iteration order; `imread` stands for `cv2.imread(path, IMREAD_GRAYSCALE)`.
      Every registered template records its own image's width and height. */
  function Register(targets: seq<(string, string)>, imread: string -> Option<Gray>): (r: map<string, FixedTemplate>)
    ensures forall n :: n in r ==> r[n].w == r[n].img.width && r[n].h == r[n].img.height
    decreases |targets|
  {
    if targets == [] then map[]
    else
      var m := Register(targets[..|targets| - 1], imread);
      var entry := targets[|targets| - 1];
      match imread(entry.1)
      case None => m
      case Some(img) => m[entry.0 := FixedTemplate(img, img.width, img.height)]
  }

  /** Dictionary keys are distinct. */
  ghost predicate DistinctNames(targets: seq<(string, string)>)
  {
    forall i, j :: 0 <= i < j < |targets| ==> targets[i].0 != targets[j].0
  }

  /** The entry at position i is registered exactly when its image loaded,
      with that image and the image's width and height. */
  lemma {:induction false} RegisterAt(targets: seq<(string, string)>, imread: string -> Option<Gray>, i: nat)
    requires DistinctNames(targets)
    requires i < |targets|
    ensures targets[i].0 in Register(targets, imread) <==> imread(targets[i].1).Some?
    ensures imread(targets[i].1).Some? ==>
      Register(targets, imread)[targets[i].0] ==
        FixedTemplate(imread(targets[i].1).value, imread(targets[i].1).value.width, imread(targets[i].1).value.height)
    decreases |targets|
  {
    var n := |targets| - 1;
    if i < n {
      var prefix := targets[..n];
      assert prefix[i] == targets[i];
      assert targets[i].0 != targets[n].0;
      assert DistinctNames(prefix);
      RegisterAt(prefix, imread, i);
    } else {
      forall j | 0 <= j < n
        ensures targets[..n][j].0 != targets[n].0
      {
        assert targets[..n][j] == targets[j];
      }
      RegisterNotNamed(targets[..n], imread, targets[n].0);
    }
  }

  /** A name that no target carries is not registered. */
  lemma {:induction false} RegisterNotNamed(targets: seq<(string, string)>, imread: string -> Option<Gray>, name: string)
    requires forall j :: 0 <= j < |targets| ==> targets[j].0 != name
    ensures name !in Register(targets, imread)
    decreases |targets|
  {
    if targets != [] {
      var n := |targets| - 1;
      forall j | 0 <= j < n
        ensures targets[..n][j].0 != name
      {
        assert targets[..n][j] == targets[j];
      }
      RegisterNotNamed(targets[..n], imread, name);
    }
  }

  /** Only names that appear among the targets are registered. */
  lemma {:induction false} RegisterOnlyTargets(targets: seq<(string, string)>, imread: string -> Option<Gray>, name: string)
    requires name in Register(targets, imread)
    ensures exists i :: 0 <= i < |targets| && targets[i].0 == name
    decreases |targets|
  {
    var n := |targets| - 1;
    if name != targets[n].0 {
      var prefix := targets[..n];
      RegisterOnlyTargets(prefix, imread, name);
      var i :| 0 <= i < |prefix| && prefix[i].0 == name;
      assert targets[i].0 == name;
    }
  }

  /** A name is registered exactly when its image loaded, and it is stored with
      that image and the image's width and height; no other name is registered. */
  lemma RegisterExactlyLoaded(targets: seq<(string, string)>, imread: string -> Option<Gray>)
    requires DistinctNames(targets)
    ensures forall i :: 0 <= i < |targets| ==>
      (targets[i].0 in Register(targets, imread) <==> imread(targets[i].1).Some?)
    ensures forall i :: 0 <= i < |targets| && imread(targets[i].1).Some? ==>
      Register(targets, imread)[targets[i].0] ==
        FixedTemplate(imread(targets[i].1).value, imread(targets[i].1).value.width, imread(targets[i].1).value.height)
    ensures forall name :: name in Register(targets, imread) ==>
      exists i :: 0 <= i < |targets| && targets[i].0 == name
  {
    forall i | 0 <= i < |targets|
      ensures targets[i].0 in Register(targets, imread) <==> imread(targets[i].1).Some?
      ensures imread(targets[i].1).Some? ==>
        Register(targets, imread)[targets[i].0] ==
          FixedTemplate(imread(targets[i].1).value, imread(targets[i].1).value.width, imread(targets[i].1).value.height)
    {
      RegisterAt(targets, imread, i);
    }
    forall name | name in Register(targets, imread)
      ensures exists i :: 0 <= i < |targets| && targets[i].0 == name
    {
      RegisterOnlyTargets(targets, imread, name);
    }
  }

  // ---------------------------------------------------------------------------
  // One iteration of `detect`

  /** The click point for a fixed template: the matched box's top-left plus half
      its width and height. It lies inside the box, at its middle pixel. */
  function Center(loc: Point, t: FixedTemplate): (p: Point)
    ensures loc.x <= p.x <= loc.x + t.w && loc.y <= p.y <= loc.y + t.h
    ensures t.w > 0 ==> p.x < loc.x + t.w
    ensures t.h > 0 ==> p.y < loc.y + t.h
    ensures t.w - 1 <= 2 * (p.x - loc.x) <= t.w && t.h - 1 <= 2 * (p.y - loc.y) <= t.h
  {
    Point(loc.x + t.w / 2, loc.y + t.h / 2)
  }

  /** A fixed detector: it clicks at most once, and only when its flag is set,
      its template is registered and the best score is strictly above the
      threshold; the click is at the centre of the best match. */
  function FixedClick(enabled: bool, cv: OpenCv, templates: map<string, FixedTemplate>, name: string, gray: Gray)
    : (r: seq<Point>)
    ensures |r| <= 1
    ensures r != [] <==> enabled && name in templates && Accepted(cv.matchPeak(gray, templates[name].img).maxVal)
    ensures r != [] ==> r[0] == Center(cv.matchPeak(gray, templates[name].img).maxLoc, templates[name])
  {
    if enabled && name in templates then
      var t := templates[name];
      var peak := cv.matchPeak(gray, t.img);
      if Accepted(peak.maxVal) then [Center(peak.maxLoc, t)] else []
    else []
  }

  /** The rotation-invariant detector: with its flag set it runs the parallel
      match, which raises on an empty library; otherwise it clicks once, at the
      best match's top-left, exactly when some variant scores above the
      threshold. */
  function SpinningClick(enabled: bool, cv: OpenCv, ip: Processor, gray: Gray): (r: Result<seq<Point>>)
    ensures r.Err? <==> enabled && ip.templatesList == []
    ensures r.Err? ==> r.error == EmptySequence
    ensures r.Ok? ==> |r.value| <= 1
    ensures r.Ok? ==> (r.value != [] <==>
      enabled && exists j :: (0 <= j < |ip.templatesList| &&
                              Accepted(MatchSingleTemplate(cv, gray, ip.templatesList[j]).score)))
    ensures r.Ok? && r.value != [] ==> exists i :: (IsFirstBest(MatchAll(cv, gray, ip.templatesList), i) &&
      r.value[0] == MatchSingleTemplate(cv, gray, ip.templatesList[i]).loc)
  {
    if !enabled then Ok([])
    else
      var best :- ParallelMatching(cv, ip, gray);
      if Accepted(best.score) then Ok([best.loc]) else Ok([])
  }

  /** One iteration of the `detect` loop, after the guard. Without a frame
      nothing is matched and nothing is clicked. With one, the detectors run in
      the order spinning, fixed gem, restart button, each on its own flag,
      and their clicks are posted in that order. */
  function DetectOnce(f: Flags, templates: map<string, FixedTemplate>, ip: Processor, cv: OpenCv,
                      capture: Option<Capture>): (r: Result<seq<Point>>)
    ensures capture.None? ==> r == Ok([])
    ensures r.Err? <==> capture.Some? && f.enableSpinning && ip.templatesList == []
    ensures r.Err? ==> r.error == EmptySequence
    ensures r.Ok? ==> |r.value| <= 3
  {
    match capture
    case None => Ok([])
    case Some(c) =>
      var gray := cv.toGray(c.frame);
      var spin :- SpinningClick(f.enableSpinning, cv, ip, gray);
      Ok(spin + FixedClick(f.enableStatic, cv, templates, FixedGemName, gray)
              + FixedClick(f.enableRestart, cv, templates, RestartBtnName, gray))
  }

  /** What each detector contributes to an iteration over a captured frame,
      when that iteration does not raise. */
  function Contribution(d: Detector, f: Flags, templates: map<string, FixedTemplate>, ip: Processor, cv: OpenCv,
                        gray: Gray): seq<Point>
  {
    match d
    case Spinning => var s := SpinningClick(f.enableSpinning, cv, ip, gray); if s.Ok? then s.value else []
    case FixedGem => FixedClick(f.enableStatic, cv, templates, FixedGemName, gray)
    case RestartBtn => FixedClick(f.enableRestart, cv, templates, RestartBtnName, gray)
  }

  /** The clicks of an iteration are the detectors' contributions in check
      order; a detector whose flag is clear contributes nothing, and no
      detector's contribution depends on another detector's flag. */
  lemma DetectOnceInCheckOrder(f: Flags, templates: map<string, FixedTemplate>, ip: Processor, cv: OpenCv, c: Capture)
    requires DetectOnce(f, templates, ip, cv, Some(c)).Ok?
    ensures DetectOnce(f, templates, ip, cv, Some(c)).value ==
      Contribution(CheckOrder[0], f, templates, ip, cv, cv.toGray(c.frame)) +
      Contribution(CheckOrder[1], f, templates, ip, cv, cv.toGray(c.frame)) +
      Contribution(CheckOrder[2], f, templates, ip, cv, cv.toGray(c.frame))
    ensures forall d :: !Enabled(f, d) ==> Contribution(d, f, templates, ip, cv, cv.toGray(c.frame)) == []
    ensures forall d, g: Flags :: Enabled(g, d) == Enabled(f, d) ==>
      Contribution(d, g, templates, ip, cv, cv.toGray(c.frame)) == Contribution(d, f, templates, ip, cv, cv.toGray(c.frame))
  {
  }

  // ---------------------------------------------------------------------------
  // The polling loop

  /** What the loop sees at one iteration: the capture (`None` when the window
      is not found) and the callbacks that fire while it sleeps afterwards. */
  datatype Tick = Tick(capture: Option<Capture>, commands: seq<Command>)

  /** The clicks posted, the final flags, and the exception that ended the
      loop, if any. */
  datatype RunOutcome = RunOutcome(clicks: seq<Point>, flags: Flags, failure: Option<Error>)

  /** `while self.is_running:` over a schedule of ticks. The loop never sets
      the running flag again, posts at most three clicks per iteration, and
      can only end on the `ValueError` of an empty variant library. */
  function Run(f: Flags, templates: map<string, FixedTemplate>, ip: Processor, cv: OpenCv, ticks: seq<Tick>)
    : (r: RunOutcome)
    ensures r.flags.isRunning ==> f.isRunning
    ensures |r.clicks| <= 3 * |ticks|
    ensures r.failure.Some? ==> r.failure == Some(EmptySequence) && ip.templatesList == []
    decreases |ticks|
  {
    if !f.isRunning || ticks == [] then RunOutcome([], f, None)
    else
      match DetectOnce(f, templates, ip, cv, ticks[0].capture)
      case Err(e) => RunOutcome([], f, Some(e))
      case Ok(cs) =>
        NeverRestarts(f, ticks[0].commands);
        var rest := Run(ApplyAll(f, ticks[0].commands), templates, ip, cv, ticks[1..]);
        RunOutcome(cs + rest.clicks, rest.flags, rest.failure)
  }

  /** A stopped automator posts nothing and its flags stay as they are. */
  lemma RunWhenStopped(f: Flags, templates: map<string, FixedTemplate>, ip: Processor, cv: OpenCv, ticks: seq<Tick>)
    requires !f.isRunning
    ensures Run(f, templates, ip, cv, ticks) == RunOutcome([], f, None)
  {
  }

  /** Once a stop fires during the sleep after iteration k, the loop exits at
      the next guard: nothing scheduled after tick k has any effect, and the
      automator ends stopped unless an earlier iteration raised. */
  lemma {:induction false} StopEndsLoop(f: Flags, templates: map<string, FixedTemplate>, ip: Processor, cv: OpenCv,
                                        ticks: seq<Tick>, k: nat)
    requires k < |ticks| && StopAll in ticks[k].commands
    ensures Run(f, templates, ip, cv, ticks) == Run(f, templates, ip, cv, ticks[..k + 1])
    ensures Run(f, templates, ip, cv, ticks).failure.None? ==> !Run(f, templates, ip, cv, ticks).flags.isRunning
    decreases k
  {
    var cut := ticks[..k + 1];
    assert cut[0] == ticks[0];
    if f.isRunning && DetectOnce(f, templates, ip, cv, ticks[0].capture).Ok? {
      var g := ApplyAll(f, ticks[0].commands);
      if k == 0 {
        StopIsFinal(f, ticks[0].commands);
        RunWhenStopped(g, templates, ip, cv, ticks[1..]);
        RunWhenStopped(g, templates, ip, cv, cut[1..]);
      } else {
        assert ticks[1..][k - 1] == ticks[k];
        assert ticks[1..][..k] == cut[1..];
        StopEndsLoop(g, templates, ip, cv, ticks[1..], k - 1);
      }
    }
  }

  /** An iteration without a frame is contained: the loop carries on with the
      next tick as if that iteration had only slept. */
  lemma MissingWindowContained(f: Flags, templates: map<string, FixedTemplate>, ip: Processor, cv: OpenCv,
                               cs: seq<Command>, rest: seq<Tick>)
    requires f.isRunning
    ensures Run(f, templates, ip, cv, [Tick(None, cs)] + rest) == Run(ApplyAll(f, cs), templates, ip, cv, rest)
  {
    assert ([Tick(None, cs)] + rest)[1..] == rest;
  }

  // ---------------------------------------------------------------------------
  // Click coordinates

  /** `click_target`: window-relative to screen coordinates; subtracting the
      window's top-left corner gives the window coordinates back. */
  function ClickTarget(x: int, y: int, rect: Rect): (p: Point)
    ensures p.x - rect.left == x && p.y - rect.top == y
  {
    Point(rect.left + x, rect.top + y)
  }

  /** The span of a 16-bit word. */
  const WordSpan: nat := 0x1_0000

  function LoWord(l: nat): nat
  {
    l % WordSpan
  }

  function HiWord(l: nat): nat
  {
    (l / WordSpan) % WordSpan
  }

  /** `MAKELONG(x, y)`: the low 16 bits of x in the low word, the low 16 bits
      of y in the high word, as a 32-bit value. */
  function MakeLong(x: int, y: int): (l: nat)
    ensures l < WordSpan * WordSpan
    ensures LoWord(l) == x % WordSpan && HiWord(l) == y % WordSpan
  {
    var lo, hi := x % WordSpan, y % WordSpan;
    DivUnique(lo + hi * WordSpan, WordSpan, hi);
    lo + hi * WordSpan
  }

  /** Window-client coordinates in `[0, 65536)` survive the packing. */
  lemma MakeLongRoundTrip(x: int, y: int)
    requires 0 <= x < WordSpan && 0 <= y < WordSpan
    ensures LoWord(MakeLong(x, y)) == x && HiWord(MakeLong(x, y)) == y
  {
  }

  /** Distinct coordinates in range give distinct `lparam` values. */
  lemma MakeLongInjective(x: int, y: int, x': int, y': int)
    requires 0 <= x < WordSpan && 0 <= y < WordSpan && 0 <= x' < WordSpan && 0 <= y' < WordSpan
    requires MakeLong(x, y) == MakeLong(x', y')
    ensures x == x' && y == y'
  {
    MakeLongRoundTrip(x, y);
    MakeLongRoundTrip(x', y');
  }

  const WM_LBUTTONDOWN: int := 0x0201
  const WM_LBUTTONUP: int := 0x0202
  const MK_LBUTTON: int := 0x0001

  /** A window message as `PostMessage(hwnd, msg, wParam, lParam)` sends it. */
  datatype Message = Message(hwnd: int, msg: int, wParam: int, lParam: nat)

  /** `post_click(x, y)`: `hwnd` is what `FindWindow` returned for the app's
      title, 0 when no such window exists. Without a window nothing is sent;
      otherwise a left-button press then a release, both at `(x, y)` packed
      into `lParam`. */
  function PostClick(hwnd: int, x: int, y: int): (ms: seq<Message>)
    ensures hwnd == 0 ==> ms == []
    ensures hwnd != 0 ==> (|ms| == 2 &&
                           ms[0].msg == WM_LBUTTONDOWN && ms[0].wParam == MK_LBUTTON &&
                           ms[1].msg == WM_LBUTTONUP && ms[1].wParam == 0)
    ensures forall m :: m in ms ==> (m.hwnd == hwnd && m.lParam == MakeLong(x, y) &&
                                     LoWord(m.lParam) == x % WordSpan && HiWord(m.lParam) == y % WordSpan)
  {
    if hwnd == 0 then []
    else
      var lparam := MakeLong(x, y);
      [Message(hwnd, WM_LBUTTONDOWN, MK_LBUTTON, lparam), Message(hwnd, WM_LBUTTONUP, 0, lparam)]
  }

  // ---------------------------------------------------------------------------
  // The automator object

  class GameAutomator {
    const appName: string
    const ip: Processor
    const templates: map<string, FixedTemplate>
    var enableSpinning: bool
    var enableStatic: bool
    var enableRestart: bool
    var isRunning: bool

    function State(): Flags
      reads this
    {
      Flags(enableSpinning, enableStatic, enableRestart, isRunning)
    }

    /** `__init__` once its `image_processor()` has loaded `file`: all
        detectors off, running, the processor holding the loaded library, and
        every target whose image loads registered under its name with its size.
        `Create` below is `__init__` including the case where the load raises. */
    constructor (appName: string, file: PickleFile, targets: seq<(string, string)>, imread: string -> Option<Gray>)
      requires NewProcessor(file).Ok?
      ensures State() == InitialFlags
      ensures this.appName == appName && ip == NewProcessor(file).value
      ensures templates == Register(targets, imread)
    {
      var registered: map<string, FixedTemplate> := map[];
      for i := 0 to |targets|
        invariant registered == Register(targets[..i], imread)
      {
        var (name, path) := targets[i];
        assert targets[..i + 1][..i] == targets[..i];
        match imread(path)
        case None =>
        case Some(tpl) =>
          registered := registered[name := FixedTemplate(tpl, tpl.width, tpl.height)];
      }
      assert targets[..|targets|] == targets;
      this.appName := appName;
      ip := NewProcessor(file).value;
      templates := registered;
      enableSpinning, enableStatic, enableRestart := false, false, false;
      isRunning := true;
    }

    /** `GameAutomator(...)`: `__init__` first builds its `image_processor()`,
        which raises on a pickle file that is present but unreadable; then
        nothing is constructed and the exception propagates. Otherwise the
        new automator holds the loaded library. */
    static method Create(appName: string, file: PickleFile, targets: seq<(string, string)>,
                         imread: string -> Option<Gray>)
      returns (r: Result<GameAutomator>)
      ensures r.Err? <==> file.Unreadable?
      ensures r.Err? ==> r.error == Unpickling
      ensures r.Ok? ==> fresh(r.value) && r.value.State() == InitialFlags &&
                        r.value.ip == NewProcessor(file).value && r.value.ip.templatesList == LoadProcessedTemplates(file).value &&
                        r.value.appName == appName && r.value.templates == Register(targets, imread)
    {
      var loaded := NewProcessor(file);
      if loaded.Err? {
        return Err(loaded.error);
      }
      var a := new GameAutomator(appName, file, targets, imread);
      return Ok(a);
    }

    /** F1. */
    method ToggleSpinning()
      modifies this
      ensures State() == Apply(old(State()), Toggle(Spinning))
    {
      enableSpinning := !enableSpinning;
    }

    /** F2. */
    method ToggleStatic()
      modifies this
      ensures State() == Apply(old(State()), Toggle(FixedGem))
    {
      enableStatic := !enableStatic;
    }

    /** F3. */
    method ToggleRestart()
      modifies this
      ensures State() == Apply(old(State()), Toggle(RestartBtn))
    {
      enableRestart := !enableRestart;
    }

    /** Esc. */
    method StopAll()
      modifies this
      ensures State() == Apply(old(State()), Command.StopAll)
    {
      isRunning := false;
    }

    /** The callback a hotkey invokes. */
    method Handle(c: Command)
      modifies this
      ensures State() == Apply(old(State()), c)
    {
      match c
      case Toggle(Spinning) => ToggleSpinning();
      case Toggle(FixedGem) => ToggleStatic();
      case Toggle(RestartBtn) => ToggleRestart();
      case StopAll => StopAll();
    }

    /** The callbacks that fire during one sleep, in order. */
    method HandleAll(cs: seq<Command>)
      modifies this
      ensures State() == ApplyAll(old(State()), cs)
    {
      for j := 0 to |cs|
        invariant State() == ApplyAll(old(State()), cs[..j])
      {
        Handle(cs[j]);
        ApplyAllSnoc(old(State()), cs[..j], cs[j]);
        assert cs[..j + 1] == cs[..j] + [cs[j]];
      }
      assert cs[..|cs|] == cs;
    }

    /** `detect`: poll until stopped (or until the schedule ends), posting the
        clicks each iteration decides on; an exception ends the loop. */
    method Detect(cv: OpenCv, ticks: seq<Tick>) returns (clicks: seq<Point>, failure: Option<Error>)
      modifies this
      ensures clicks == Run(old(State()), templates, ip, cv, ticks).clicks
      ensures failure == Run(old(State()), templates, ip, cv, ticks).failure
      ensures State() == Run(old(State()), templates, ip, cv, ticks).flags
    {
      ghost var outcome := Run(State(), templates, ip, cv, ticks);
      clicks, failure := [], None;
      var i := 0;
      while isRunning && i < |ticks|
        invariant 0 <= i <= |ticks|
        invariant outcome == Prepend(clicks, Run(State(), templates, ip, cv, ticks[i..]))
        decreases |ticks| - i
      {
        var tick := ticks[i];
        var iteration := DetectOnce(State(), templates, ip, cv, tick.capture);
        RunStep(clicks, State(), templates, ip, cv, ticks, i);
        if iteration.Err? {
          failure := Some(iteration.error);
          return;
        }
        clicks := clicks + iteration.value;
        HandleAll(tick.commands);
        i := i + 1;
      }
      RunEnd(State(), templates, ip, cv, ticks, i);
    }
  }

  /** The outcome of a run that first posted `cs`. */
  function Prepend(cs: seq<Point>, o: RunOutcome): RunOutcome
  {
    RunOutcome(cs + o.clicks, o.flags, o.failure)
  }

  /** One step of the loop from tick i, after `done` has been posted. */
  lemma RunStep(done: seq<Point>, f: Flags, templates: map<string, FixedTemplate>, ip: Processor, cv: OpenCv,
                ticks: seq<Tick>, i: nat)
    requires f.isRunning && i < |ticks|
    ensures DetectOnce(f, templates, ip, cv, ticks[i].capture).Err? ==>
      Prepend(done, Run(f, templates, ip, cv, ticks[i..])) ==
        RunOutcome(done, f, Some(DetectOnce(f, templates, ip, cv, ticks[i].capture).error))
    ensures DetectOnce(f, templates, ip, cv, ticks[i].capture).Ok? ==>
      Prepend(done, Run(f, templates, ip, cv, ticks[i..])) ==
        Prepend(done + DetectOnce(f, templates, ip, cv, ticks[i].capture).value,
                Run(ApplyAll(f, ticks[i].commands), templates, ip, cv, ticks[i + 1..]))
  {
    assert ticks[i..][0] == ticks[i] && ticks[i..][1..] == ticks[i + 1..];
    match DetectOnce(f, templates, ip, cv, ticks[i].capture)
    case Err(e) =>
      assert done + [] == done;
    case Ok(cs) =>
      var rest := Run(ApplyAll(f, ticks[i].commands), templates, ip, cv, ticks[i + 1..]);
      assert done + (cs + rest.clicks) == (done + cs) + rest.clicks;
  }

  /** The loop exits when stopped or when the schedule is used up. */
  lemma RunEnd(f: Flags, templates: map<string, FixedTemplate>, ip: Processor, cv: OpenCv, ticks: seq<Tick>, i: nat)
    requires i <= |ticks| && (!f.isRunning || i == |ticks|)
    ensures Run(f, templates, ip, cv, ticks[i..]) == RunOutcome([], f, None)
  {
    if i == |ticks| {
      assert ticks[i..] == [];
    }
  }

  lemma {:induction false} ApplyAllSnoc(f: Flags, cs: seq<Command>, c: Command)
    ensures ApplyAll(f, cs + [c]) == Apply(ApplyAll(f, cs), c)
    decreases |cs|
  {
    if cs != [] {
      assert (cs + [c])[1..] == cs[1..] + [c];
      ApplyAllSnoc(Apply(f, cs[0]), cs[1..], c);
    }
  }
}
