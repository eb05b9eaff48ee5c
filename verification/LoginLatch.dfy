/** The latched login-required status of the Android client (client/android/session.go,
    client/android/client.go), over every interleaving of its lock-granular steps. */
module LoginLatch {
  import opened Common

  type Thread = nat
  type ClientId = nat

  /** How far one Status call has got. */
  datatype Phase =
    | Observing(generation: nat)                              // loginRequiredState returned unlatched
    | HoldsClient(generation: nat, client: ClientId)          // getConnectClient returned
    | SawNeedsLogin(generation: nat, client: ClientId)        // cc.Status() was NeedsLogin

  /** How far one interactive Run has got; ids number the connect clients in install order. */
  datatype Login = LoggedIn | Installed(client: ClientId) | Cleared(client: ClientId)

  /** What loginRequiredMu guards: the latch, and how often it was cleared. */
  datatype Flags = Flags(required: bool, cleared: nat)

  datatype State = State(
    flags: Flags,
    client: Option<ClientId>,          // connectClient
    installs: nat,                     // connect clients installed so far
    calls: map<Thread, Phase>,         // Status calls in flight
    logins: map<Thread, Login>)        // interactive logins

  const START := State(Flags(false, 0), None, 0, map[], map[])

  datatype Action =
    | BeginStatus(t: Thread)           // loginRequiredState
    | GetClient(t: Thread)             // getConnectClient
    | ReadStatus(t: Thread, needsLogin: bool)   // cc.Status(), outside every lock
    | Latch(t: Thread)                 // latchLoginRequired
    | Login(t: Thread)                 // Run: auth.login succeeded
    | Install(t: Thread)               // Run: setState
    | ClearAfterRun(t: Thread)         // Run: clearLoginRequired
    | InstallWithoutLogin              // RunWithoutLogin: setState
    | Extend                           // a session extend: clearLoginRequired

  // ------------------------------------------------------- the critical sections

  /** The flags after an observation made at generation `observed` is reported. */
  function Latching(f: Flags, observed: nat): Flags {
    if f.cleared != observed then f else f.(required := true)
  }

  function Clearing(f: Flags): Flags { Flags(false, f.cleared + 1) }

  class LoginState {
    var loginRequired: bool
    var loginCleared: nat

    function Value(): Flags reads this { Flags(loginRequired, loginCleared) }

    method LoginRequiredState() returns (latched: bool, generation: nat)
      ensures Value() == Flags(latched, generation)
    {
      latched, generation := loginRequired, loginCleared;
    }

    method LatchLoginRequired(observed: nat)
      modifies this
      ensures Value() == Latching(old(Value()), observed)
    {
      if loginCleared != observed { return; }
      loginRequired := true;
    }

    method ClearLoginRequired()
      modifies this
      ensures Value() == Clearing(old(Value()))
    {
      loginRequired := false;
      loginCleared := loginCleared + 1;
    }
  }

  // ---------------------------------------------------------------------- steps

  /** One step; a step that is not due changes nothing. */
  function Step(s: State, a: Action): State {
    match a
    case BeginStatus(t) =>
      if t in s.calls || s.flags.required then s else s.(calls := s.calls[t := Observing(s.flags.cleared)])
    case GetClient(t) =>
      if t !in s.calls || !s.calls[t].Observing? then s
      else (match s.client
            case None => s.(calls := s.calls - {t})
            case Some(cc) => s.(calls := s.calls[t := HoldsClient(s.calls[t].generation, cc)]))
    case ReadStatus(t, needsLogin) =>
      if t !in s.calls || !s.calls[t].HoldsClient? then s
      else if needsLogin then s.(calls := s.calls[t := SawNeedsLogin(s.calls[t].generation, s.calls[t].client)])
      else s.(calls := s.calls - {t})
    case Latch(t) =>
      if t !in s.calls || !s.calls[t].SawNeedsLogin? then s
      else s.(flags := Latching(s.flags, s.calls[t].generation), calls := s.calls - {t})
    case Login(t) =>
      if t in s.logins then s else s.(logins := s.logins[t := LoggedIn])
    case Install(t) =>
      if t !in s.logins || !s.logins[t].LoggedIn? then s
      else s.(client := Some(s.installs), installs := s.installs + 1, logins := s.logins[t := Installed(s.installs)])
    case ClearAfterRun(t) =>
      if t !in s.logins || !s.logins[t].Installed? then s
      else s.(flags := Clearing(s.flags), logins := s.logins[t := Cleared(s.logins[t].client)])
    case InstallWithoutLogin => s.(client := Some(s.installs), installs := s.installs + 1)
    case Extend => s.(flags := Clearing(s.flags))
  }

  function After(s: State, actions: seq<Action>): State {
    if actions == [] then s
    else Step(After(s, actions[..|actions| - 1]), actions[|actions| - 1])
  }

  lemma AfterSnoc(s: State, actions: seq<Action>, a: Action)
    ensures After(s, actions + [a]) == Step(After(s, actions), a)
  {
    assert (actions + [a])[..|actions|] == actions;
  }

  /** This step turns the latch on. */
  predicate Sets(s: State, a: Action) { !s.flags.required && Step(s, a).flags.required }

  /** A clear, by a login or an extend, that takes effect. */
  predicate Clears(s: State, a: Action) {
    a.Extend? || (a.ClearAfterRun? && a.t in s.logins && s.logins[a.t].Installed?)
  }

  // ----------------------------------------------------------------- invariants

  /** Calls observe generations that have occurred and clients that have been installed. */
  ghost predicate Sound(s: State) {
    && (s.client.Some? ==> s.client.value < s.installs)
    && (forall t :: t in s.calls ==> s.calls[t].generation <= s.flags.cleared)
    && (forall t :: t in s.calls && !s.calls[t].Observing? ==> s.calls[t].client < s.installs)
    && (forall t :: t in s.logins && !s.logins[t].LoggedIn? ==> s.logins[t].client < s.installs)
  }

  lemma StepSound(s: State, a: Action)
    requires Sound(s)
    ensures Sound(Step(s, a))
  {
  }

  lemma {:induction false} AfterSound(actions: seq<Action>)
    ensures Sound(After(START, actions))
  {
    if actions != [] {
      AfterSound(actions[..|actions| - 1]);
      StepSound(After(START, actions[..|actions| - 1]), actions[|actions| - 1]);
    }
  }

  lemma {:induction false} ClearedGrows(s: State, actions: seq<Action>)
    ensures s.flags.cleared <= After(s, actions).flags.cleared
    ensures s.installs <= After(s, actions).installs
  {
    if actions != [] {
      ClearedGrows(s, actions[..|actions| - 1]);
    }
  }

  /** Only a Status call that saw NeedsLogin with the current generation sets the latch. */
  lemma OnlyCurrentObservationsSet(s: State, a: Action)
    requires Sets(s, a)
    ensures a.Latch? && a.t in s.calls && s.calls[a.t].SawNeedsLogin? && s.calls[a.t].generation == s.flags.cleared
  {
  }

  /** A clear takes effect somewhere in the run. */
  ghost predicate ClearedIn(s: State, actions: seq<Action>) {
    exists k :: 0 <= k < |actions| && Clears(After(s, actions[..k]), actions[k])
  }

  lemma ClearedExtends(s: State, actions: seq<Action>)
    requires actions != [] && ClearedIn(s, actions[..|actions| - 1])
    ensures ClearedIn(s, actions)
  {
    var before := actions[..|actions| - 1];
    var k :| 0 <= k < |before| && Clears(After(s, before[..k]), before[k]);
    assert before[..k] == actions[..k] && before[k] == actions[k];
  }

  lemma StepLatch(s: State, a: Action)
    requires s.flags.required && !Clears(s, a)
    ensures Step(s, a).flags.required
  {
  }

  /** Once set, the latch outlives every restart and every other step until a login or an
      extend clears it. */
  lemma {:induction false} LatchLastsUntilCleared(s: State, actions: seq<Action>)
    requires s.flags.required
    ensures After(s, actions).flags.required || ClearedIn(s, actions)
  {
    if actions != [] {
      var n := |actions| - 1;
      LatchLastsUntilCleared(s, actions[..n]);
      if ClearedIn(s, actions[..n]) {
        ClearedExtends(s, actions);
      } else if !Clears(After(s, actions[..n]), actions[n]) {
        StepLatch(After(s, actions[..n]), actions[n]);
      }
    }
  }

  /** Whether the call of thread `t` in flight now was already in flight at the start of `actions`. */
  ghost predicate SameCall(s: State, t: Thread, actions: seq<Action>) {
    && t in s.calls
    && forall k :: 0 <= k <= |actions| ==> t in After(s, actions[..k]).calls
  }

  lemma {:induction false} SameCallKeepsGeneration(s: State, t: Thread, actions: seq<Action>)
    requires SameCall(s, t, actions)
    ensures t in After(s, actions).calls && After(s, actions).calls[t].generation == s.calls[t].generation
  {
    assert actions[..|actions|] == actions;
    if actions != [] {
      var before := actions[..|actions| - 1];
      assert forall k :: 0 <= k <= |before| ==> before[..k] == actions[..k];
      SameCallKeepsGeneration(s, t, before);
    }
  }

  /** Whatever is interleaved, a Status call in flight when a clear happens never sets the
      latch after it. */
  lemma StaleObservationNeverLatches(before: seq<Action>, clear: Action, t: Thread, between: seq<Action>)
    requires var s := After(START, before);
             Clears(s, clear) && SameCall(Step(s, clear), t, between)
    ensures !Sets(After(Step(After(START, before), clear), between), Latch(t))
  {
    var s := After(START, before);
    var s1 := Step(s, clear);
    AfterSound(before);
    SameCallKeepsGeneration(s1, t, between);
    ClearedGrows(s1, between);
    assert s1.calls[t].generation <= s.flags.cleared < s1.flags.cleared;
  }

  // ----------------------------------------------------------- install, then clear

  /** Calls of the current generation that hold a client hold one installed since `since`,
      and so does anything they can still read. */
  ghost predicate Fresh(s: State, since: ClientId) {
    && s.client.Some? && s.client.value >= since && s.installs > since
    && (forall t :: t in s.calls && !s.calls[t].Observing? && s.calls[t].generation == s.flags.cleared ==>
          s.calls[t].client >= since)
  }

  lemma ClearMakesFresh(s: State, clear: Action)
    requires Sound(s) && Clears(s, clear) && s.client.Some?
    ensures Fresh(Step(s, clear), s.client.value)
  {
  }

  /** The connect client in place is never older than one a login has installed. */
  ghost predicate LoginsInstalled(s: State) {
    forall t :: t in s.logins && !s.logins[t].LoggedIn? ==>
      s.client.Some? && s.client.value >= s.logins[t].client
  }

  lemma {:induction false} AfterLoginsInstalled(actions: seq<Action>)
    ensures LoginsInstalled(After(START, actions))
  {
    if actions != [] {
      AfterLoginsInstalled(actions[..|actions| - 1]);
      AfterSound(actions[..|actions| - 1]);
    }
  }

  lemma StepFresh(s: State, since: ClientId, a: Action)
    requires Sound(s) && Fresh(s, since)
    ensures Fresh(Step(s, a), since)
  {
    var s' := Step(s, a);
    forall t | t in s'.calls && !s'.calls[t].Observing? && s'.calls[t].generation == s'.flags.cleared
      ensures s'.calls[t].client >= since
    {
      if a == GetClient(t) && t in s.calls && s.calls[t].Observing? {
        assert s'.calls[t].client == s.client.value;
      } else if a.ReadStatus? && a.t == t {
        assert s'.calls[t].client == s.calls[t].client;
      } else {
        assert s.calls[t] == s'.calls[t];
      }
    }
  }

  lemma {:induction false} FreshLasts(s: State, since: ClientId, actions: seq<Action>)
    requires Sound(s) && Fresh(s, since)
    ensures Sound(After(s, actions)) && Fresh(After(s, actions), since)
  {
    if actions != [] {
      var before := After(s, actions[..|actions| - 1]);
      FreshLasts(s, since, actions[..|actions| - 1]);
      StepSound(before, actions[|actions| - 1]);
      StepFresh(before, since, actions[|actions| - 1]);
    }
  }

  /** The step reports NeedsLogin of a client no older than `since`. */
  predicate ReportsSince(s: State, a: Action, since: ClientId) {
    a.Latch? && a.t in s.calls && s.calls[a.t].SawNeedsLogin? && s.calls[a.t].client >= since
  }

  /** After any clear, by a login or an extend, every latch reports a client no older than
      the one in place at the clear; no client in place at all excludes nothing. */
  lemma LatchAfterClearIsCurrent(before: seq<Action>, clear: Action, between: seq<Action>, a: Action)
    requires var s := After(START, before); Clears(s, clear) && s.client.Some?
    requires Sets(After(Step(After(START, before), clear), between), a)
    ensures var now := After(Step(After(START, before), clear), between);
            ReportsSince(now, a, After(START, before).client.value)
  {
    var s := After(START, before);
    AfterSound(before);
    StepSound(s, clear);
    ClearMakesFresh(s, clear);
    FreshLasts(Step(s, clear), s.client.value, between);
    OnlyCurrentObservationsSet(After(Step(s, clear), between), a);
  }

  /** Because a login installs its connect client before it clears, any latch set after
      that clear, by whatever Status call, reports a client installed no earlier than the
      login's own. */
  lemma LatchAfterLoginIsNew(before: seq<Action>, login: Thread, between: seq<Action>, a: Action)
    requires var s := After(START, before); login in s.logins && s.logins[login].Installed?
    requires Sets(After(Step(After(START, before), ClearAfterRun(login)), between), a)
    ensures var s := After(START, before);
            var now := After(Step(s, ClearAfterRun(login)), between);
            ReportsSince(now, a, s.logins[login].client)
  {
    AfterLoginsInstalled(before);
    LatchAfterClearIsCurrent(before, ClearAfterRun(login), between, a);
  }

  /** The bound is met: after an extend, which installs nothing, a Status call that begins
      after the clear can latch again from the very client in place at the clear. */
  lemma ExtendCanRelatch(s: State, t: Thread)
    requires s.client.Some? && t !in s.calls
    ensures var s' := After(s, [Extend, BeginStatus(t), GetClient(t), ReadStatus(t, true)]);
            Sets(s', Latch(t)) && ReportsSince(s', Latch(t), 0) && s'.calls[t].client == s.client.value
  {
    var s1 := Step(s, Extend);
    var s2 := Step(s1, BeginStatus(t));
    var s3 := Step(s2, GetClient(t));
    assert s2.calls[t] == Observing(s.flags.cleared + 1);
    assert s3.calls[t] == HoldsClient(s.flags.cleared + 1, s.client.value);
    AfterFour(s, Extend, BeginStatus(t), GetClient(t), ReadStatus(t, true));
  }

  lemma AfterFour(s: State, a: Action, b: Action, c: Action, d: Action)
    ensures After(s, [a, b, c, d]) == Step(Step(Step(Step(s, a), b), c), d)
  {
    assert [] + [a] == [a] && [a] + [b] == [a, b] && [a, b] + [c] == [a, b, c] && [a, b, c] + [d] == [a, b, c, d];
    AfterSnoc(s, [], a);
    AfterSnoc(s, [a], b);
    AfterSnoc(s, [a, b], c);
    AfterSnoc(s, [a, b, c], d);
  }
}
