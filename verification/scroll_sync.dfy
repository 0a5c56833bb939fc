/** The editor/preview scroll lock of `ScrollSync` as a pure transition system.

    The class holds two flags and the handle of its last debounce timer. A
    scroll of one pane is ignored while the other pane holds the lock;
    otherwise the handler takes the lock, writes the other pane's scroll
    position (an abstract `Sync` command here) and re-arms a 100 ms timer
    whose callback clears both flags. The browser's timer table is part of
    the state so that cancelling and firing timers can be reasoned about;
    the passage of time is the explicit `TimerFire` event. */
module ScrollSync {
  import opened Optional

  datatype Pane = Editor | Preview

  function Other(p: Pane): Pane {
    if p == Editor then Preview else Editor
  }

  /** What the handlers react to: a native scroll event on a pane, or the
      browser running the callback of the timer with the given handle. */
  datatype Event = Scroll(source: Pane) | TimerFire(handle: nat)

  /** One observable step of a handler, in program order. */
  datatype Effect =
    | SetFlag(pane: Pane)         // isScrollingEditor / isScrollingPreview := true
    | Sync(target: Pane)          // syncPreview / syncEditor: writes target's scrollTop
    | ClearTimeout(handle: nat)   // clearTimeout(this.timeout)
    | SetTimeout(handle: nat)     // this.timeout := window.setTimeout(...)
    | Expire(handle: nat)         // the browser runs and forgets a pending timer
    | ClearFlags                  // the timer callback: both flags := false

  /** The two lock flags and `timeout` field of the class, plus the browser's
      table of pending timers and the handle its next `setTimeout` returns. */
  datatype State = State(
    isScrollingEditor: bool,
    isScrollingPreview: bool,
    timeout: Option<nat>,
    pending: set<nat>,
    nextHandle: nat)

  /** A fresh instance: both flags false, `timeout` null, no timers. Browsers
      hand out positive timer handles. */
  function Init(): State {
    State(false, false, None, {}, 1)
  }

  function Flag(s: State, p: Pane): bool {
    if p == Editor then s.isScrollingEditor else s.isScrollingPreview
  }

  predicate Idle(s: State) {
    !s.isScrollingEditor && !s.isScrollingPreview
  }

  /** `resetScrollState`: cancel the recorded timer when `this.timeout` is
      truthy, then arm a new one. */
  function ResetScrollState(s: State): seq<Effect> {
    (if s.timeout.Some? && s.timeout.value != 0 then [ClearTimeout(s.timeout.value)] else [])
    + [SetTimeout(s.nextHandle)]
  }

  /** The effects one event produces, in the order the handler performs them:
      `onEditorScroll` / `onPreviewScroll` for a scroll, the timer callback for
      a pending timer. A timer that is no longer pending never runs. */
  function Handle(s: State, e: Event): seq<Effect> {
    match e
    case Scroll(p) =>
      if Flag(s, Other(p)) then []
      else [SetFlag(p), Sync(Other(p))] + ResetScrollState(s)
    case TimerFire(h) =>
      if h in s.pending then [Expire(h), ClearFlags] else []
  }

  function Apply(s: State, f: Effect): State {
    match f
    case SetFlag(p) =>
      if p == Editor then s.(isScrollingEditor := true) else s.(isScrollingPreview := true)
    case Sync(_) => s
    case ClearTimeout(h) => s.(pending := s.pending - {h})
    case SetTimeout(h) => s.(timeout := Some(h), pending := s.pending + {h}, nextHandle := h + 1)
    case Expire(h) => s.(pending := s.pending - {h})
    case ClearFlags => s.(isScrollingEditor := false, isScrollingPreview := false)
  }

  function ApplyAll(s: State, fs: seq<Effect>): State
    decreases |fs|
  {
    if |fs| == 0 then s else ApplyAll(Apply(s, fs[0]), fs[1..])
  }

  /** The scroll commands among a handler's effects: the panes written to. */
  function Commands(fs: seq<Effect>): seq<Pane>
    decreases |fs|
  {
    if |fs| == 0 then []
    else (if fs[0].Sync? then [fs[0].target] else []) + Commands(fs[1..])
  }

  function Step(s: State, e: Event): State {
    ApplyAll(s, Handle(s, e))
  }

  /** The state after a sequence of events, processed in arrival order. */
  function Run(s: State, es: seq<Event>): State
    decreases |es|
  {
    if |es| == 0 then s else Run(Step(s, es[0]), es[1..])
  }

  /** Every command issued while processing a sequence of events. */
  function Trace(s: State, es: seq<Event>): seq<Pane>
    decreases |es|
  {
    if |es| == 0 then [] else Commands(Handle(s, es[0])) + Trace(Step(s, es[0]), es[1..])
  }

  /** Timer bookkeeping: handles are positive and increasing, and the only
      timer that can be pending is the one `timeout` records. */
  predicate TimersValid(s: State) {
    && s.nextHandle >= 1
    && (s.timeout.Some? ==> 1 <= s.timeout.value < s.nextHandle)
    && (forall h :: h in s.pending ==> s.timeout == Some(h))
  }

  /** The invariant of every reachable state. */
  predicate Valid(s: State) {
    && TimersValid(s)
    // never both locks
    && !(s.isScrollingEditor && s.isScrollingPreview)
    // a held lock always has a timer that will release it
    && (!Idle(s) ==> s.pending != {})
  }

  lemma ApplyAllOne(s: State, f: Effect)
    ensures ApplyAll(s, [f]) == Apply(s, f)
  {
    assert [f][1..] == [];
  }

  lemma CommandsOne(f: Effect)
    ensures Commands([f]) == if f.Sync? then [f.target] else []
  {
    assert [f][1..] == [];
  }

  lemma {:induction false} ApplyAllAppend(s: State, xs: seq<Effect>, ys: seq<Effect>)
    ensures ApplyAll(s, xs + ys) == ApplyAll(ApplyAll(s, xs), ys)
    decreases |xs|
  {
    if |xs| == 0 {
      assert xs + ys == ys;
    } else {
      assert (xs + ys)[1..] == xs[1..] + ys;
      ApplyAllAppend(Apply(s, xs[0]), xs[1..], ys);
    }
  }

  lemma {:induction false} CommandsAppend(xs: seq<Effect>, ys: seq<Effect>)
    ensures Commands(xs + ys) == Commands(xs) + Commands(ys)
    decreases |xs|
  {
    if |xs| == 0 {
      assert xs + ys == ys;
    } else {
      var c := if xs[0].Sync? then [xs[0].target] else [];
      assert (xs + ys)[0] == xs[0];
      assert (xs + ys)[1..] == xs[1..] + ys;
      CommandsAppend(xs[1..], ys);
      calc {
        Commands(xs + ys);
        c + Commands(xs[1..] + ys);
        c + (Commands(xs[1..]) + Commands(ys));
        (c + Commands(xs[1..])) + Commands(ys);
      }
    }
  }

  /** Resetting the timer issues no command. */
  lemma ResetIssuesNothing(s: State)
    ensures Commands(ResetScrollState(s)) == []
  {
    CommandsOne(SetTimeout(s.nextHandle));
    if s.timeout.Some? && s.timeout.value != 0 {
      CommandsOne(ClearTimeout(s.timeout.value));
      CommandsAppend([ClearTimeout(s.timeout.value)], [SetTimeout(s.nextHandle)]);
    } else {
      assert ResetScrollState(s) == [SetTimeout(s.nextHandle)];
    }
  }

  /** Resetting the timer leaves exactly the new timer pending and changes
      nothing else. */
  lemma ResetEffect(s: State)
    requires TimersValid(s)
    ensures ApplyAll(s, ResetScrollState(s))
      == s.(timeout := Some(s.nextHandle), pending := {s.nextHandle}, nextHandle := s.nextHandle + 1)
  {
    var n := s.nextHandle;
    ApplyAllOne(s, SetTimeout(n));
    if s.timeout.Some? && s.timeout.value != 0 {
      var h := s.timeout.value;
      var s1 := Apply(s, ClearTimeout(h));
      assert s.pending <= {h};
      assert s1.pending == {};
      ApplyAllOne(s, ClearTimeout(h));
      ApplyAllOne(s1, SetTimeout(n));
      ApplyAllAppend(s, [ClearTimeout(h)], [SetTimeout(n)]);
      assert ResetScrollState(s) == [ClearTimeout(h)] + [SetTimeout(n)];
      assert Apply(s1, SetTimeout(n)).pending == {n};
    } else {
      assert s.pending == {};
      assert ResetScrollState(s) == [SetTimeout(n)];
      assert Apply(s, SetTimeout(n)).pending == {n};
    }
  }

  lemma AtMostOneTimer(s: State)
    requires TimersValid(s)
    ensures |s.pending| <= 1
    ensures s.pending != {} ==> s.pending == {s.timeout.value}
  {
    if s.pending != {} {
      var h :| h in s.pending;
      assert s.pending == {h};
    }
  }

  // ---------------------------------------------------------------------
  // Single steps

  /** An event from a pane arriving while the other pane holds the lock is
      dropped: no flag changes, no command, the timer is not re-armed. */
  lemma IgnoredScroll(s: State, p: Pane)
    requires Flag(s, Other(p))
    ensures Handle(s, Scroll(p)) == []
    ensures Step(s, Scroll(p)) == s
  {
  }

  /** An accepted scroll takes the lock for its own pane, leaves the other
      pane unlocked, issues exactly one command (to the other pane) and leaves
      exactly one pending timer: a fresh one that replaces any earlier timer. */
  lemma AcceptedScroll(s: State, p: Pane)
    requires Valid(s)
    requires !Flag(s, Other(p))
    ensures var s' := Step(s, Scroll(p));
      && Flag(s', p) && !Flag(s', Other(p))
      && Commands(Handle(s, Scroll(p))) == [Other(p)]
      && s'.pending == {s.nextHandle}
      && s'.timeout == Some(s.nextHandle)
      && s'.nextHandle == s.nextHandle + 1
  {
    var head := [SetFlag(p), Sync(Other(p))];
    var fs := Handle(s, Scroll(p));
    assert fs == head + ResetScrollState(s);
    assert head == [SetFlag(p)] + [Sync(Other(p))];
    ApplyAllOne(s, SetFlag(p));
    ApplyAllOne(Apply(s, SetFlag(p)), Sync(Other(p)));
    ApplyAllAppend(s, [SetFlag(p)], [Sync(Other(p))]);
    var s2 := ApplyAll(s, head);
    assert s2 == Apply(s, SetFlag(p));
    ApplyAllAppend(s, head, ResetScrollState(s));
    ResetEffect(s2);
    assert ResetScrollState(s2) == ResetScrollState(s);
    CommandsOne(SetFlag(p));
    CommandsOne(Sync(Other(p)));
    CommandsAppend([SetFlag(p)], [Sync(Other(p))]);
    CommandsAppend(head, ResetScrollState(s));
    ResetIssuesNothing(s);
  }

  /** From the idle state every scroll, from either pane, is accepted. */
  lemma IdleAcceptsScroll(s: State, p: Pane)
    requires Valid(s) && Idle(s)
    ensures Commands(Handle(s, Scroll(p))) == [Other(p)]
    ensures Flag(Step(s, Scroll(p)), p)
  {
    AcceptedScroll(s, p);
  }

  /** A pending timer firing returns the lock to idle whichever pane held it,
      issues no command and leaves no timer behind. */
  lemma TimerFireReleases(s: State, h: nat)
    requires Valid(s) && h in s.pending
    ensures Idle(Step(s, TimerFire(h)))
    ensures Step(s, TimerFire(h)) == s.(isScrollingEditor := false, isScrollingPreview := false, pending := {})
    ensures Commands(Handle(s, TimerFire(h))) == []
  {
    AtMostOneTimer(s);
    var fs := Handle(s, TimerFire(h));
    assert fs == [Expire(h)] + [ClearFlags];
    ApplyAllOne(s, Expire(h));
    ApplyAllOne(Apply(s, Expire(h)), ClearFlags);
    ApplyAllAppend(s, [Expire(h)], [ClearFlags]);
    CommandsOne(Expire(h));
    CommandsOne(ClearFlags);
    CommandsAppend([Expire(h)], [ClearFlags]);
  }

  /** The lock can never stay held for good: whenever a flag is set, some
      pending timer exists whose firing makes the state idle. */
  lemma LockIsReleasable(s: State)
    requires Valid(s) && !Idle(s)
    ensures exists h :: h in s.pending && Idle(Step(s, TimerFire(h)))
  {
    var h :| h in s.pending;
    TimerFireReleases(s, h);
  }

  /** Handling any event keeps the invariant. */
  lemma StepValid(s: State, e: Event)
    requires Valid(s)
    ensures Valid(Step(s, e))
  {
    match e
    case Scroll(p) =>
      if !Flag(s, Other(p)) {
        AcceptedScroll(s, p);
      }
    case TimerFire(h) =>
      if h in s.pending {
        TimerFireReleases(s, h);
      }
  }

  /** Lock-before-command: at the moment any command is issued, the issuing
      pane's flag is already set, so the echo scroll that the command causes
      on the target pane is ignored. */
  lemma LockBeforeCommand(s: State, e: Event)
    requires Valid(s)
    ensures var fs := Handle(s, e);
      forall i :: 0 <= i < |fs| && fs[i].Sync? ==>
        var mid := ApplyAll(s, fs[..i]);
        Flag(mid, Other(fs[i].target)) && Handle(mid, Scroll(fs[i].target)) == []
  {
    var fs := Handle(s, e);
    forall i | 0 <= i < |fs| && fs[i].Sync?
      ensures var mid := ApplyAll(s, fs[..i]);
        Flag(mid, Other(fs[i].target)) && Handle(mid, Scroll(fs[i].target)) == []
    {
      assert e.Scroll? && i == 1;
      var p := e.source;
      assert fs[..1] == [SetFlag(p)];
      assert ApplyAll(s, fs[..1]) == Apply(s, SetFlag(p));
    }
  }

  // ---------------------------------------------------------------------
  // Runs

  lemma {:induction false} RunValid(s: State, es: seq<Event>)
    requires Valid(s)
    ensures Valid(Run(s, es))
    decreases |es|
  {
    if |es| > 0 {
      StepValid(s, es[0]);
      RunValid(Step(s, es[0]), es[1..]);
    }
  }

  /** In every state reachable from a fresh instance the two flags are never
      both set, at most one timer is pending, and the whole invariant holds,
      so a held lock always has a timer that will release it. */
  lemma ReachableMutualExclusion(es: seq<Event>)
    ensures var s := Run(Init(), es);
      !(s.isScrollingEditor && s.isScrollingPreview) && |s.pending| <= 1
    ensures Valid(Run(Init(), es))
  {
    RunValid(Init(), es);
    AtMostOneTimer(Run(Init(), es));
  }

  /** Loop prevention: while a pane holds the lock and no timer fires, any
      mix of scroll events (user scrolls of the same pane, echoes on the other
      pane) only ever drives the other pane, and the lock stays put. */
  lemma {:induction false} EchoIgnoredUntilTimer(s: State, p: Pane, es: seq<Event>)
    requires Valid(s) && Flag(s, p)
    requires forall i :: 0 <= i < |es| ==> es[i].Scroll?
    ensures forall i :: 0 <= i < |Trace(s, es)| ==> Trace(s, es)[i] == Other(p)
    ensures Flag(Run(s, es), p)
    decreases |es|
  {
    if |es| > 0 {
      var e := es[0];
      var s' := Step(s, e);
      if e.source == p {
        AcceptedScroll(s, p);
      } else {
        assert Other(p) == e.source && p == Other(e.source);
        IgnoredScroll(s, e.source);
      }
      StepValid(s, e);
      EchoIgnoredUntilTimer(s', p, es[1..]);
    }
  }

  /** One user scroll followed by the echo it causes issues exactly one
      command, towards the other pane. */
  lemma RoundTripSingleCommand(s: State, p: Pane)
    requires Valid(s) && !Flag(s, Other(p))
    ensures Trace(s, [Scroll(p), Scroll(Other(p))]) == [Other(p)]
  {
    AcceptedScroll(s, p);
    var s' := Step(s, Scroll(p));
    IgnoredScroll(s', Other(p));
    assert Other(Other(p)) == p;
    var es := [Scroll(p), Scroll(Other(p))];
    assert es[1..] == [Scroll(Other(p))];
    assert es[1..][1..] == [];
    assert Trace(s', es[1..]) == [] + Trace(s', []);
    assert Trace(s, es) == [Other(p)] + Trace(s', es[1..]);
  }
}
