/** The Android SSH client (client/android/ssh_client.go) as a lock-granular protocol:
    its critical sections, the connects, session starts and readers between them, and what
    holds under every interleaving. */
module SSHClient {
  import opened Common

  type Thread = nat

  /** A Connect, named by the generation it drew. */
  type Attempt = nat

  /** A started session: the connection it runs over and the generation it was started at. */
  datatype Session = Session(generation: nat, client: Attempt)

  /** What the mutex guards. */
  datatype Fields = Fields(
    gen: nat,
    closed: bool,
    sshClient: Option<Attempt>,
    session: Option<Session>,
    stdin: Option<Session>,
    dialCancel: Option<Attempt>)

  const FRESH := Fields(0, false, None, None, None, None)

  // ------------------------------------------------------- the critical sections

  function Beginning(f: Fields): Fields { f.(gen := f.gen + 1) }

  function Dialing(f: Fields, gen: nat): Fields {
    if gen != f.gen then f else f.(dialCancel := Some(gen))
  }

  function Installing(f: Fields, gen: nat): Fields {
    if gen != f.gen then f else f.(sshClient := Some(gen))
  }

  function Starting(f: Fields, s: Session): Fields {
    if s.generation != f.gen then f else f.(session := Some(s), stdin := Some(s))
  }

  function Closing(f: Fields): Fields { Fields(f.gen + 1, true, None, None, None, None) }

  function Resetting(f: Fields): Fields { f.(closed := false) }

  predicate ReaderNotifies(f: Fields, gen: nat) { gen == f.gen && !f.closed }

  function Notifying(f: Fields, gen: nat): Fields {
    if ReaderNotifies(f, gen) then f.(closed := true) else f
  }

  class Client {
    var gen: nat
    var closed: bool
    var sshClient: Option<Attempt>
    var session: Option<Session>
    var stdin: Option<Session>
    var dialCancel: Option<Attempt>

    function Value(): Fields reads this { Fields(gen, closed, sshClient, session, stdin, dialCancel) }

    constructor ()
      ensures Value() == FRESH
    {
      gen, closed, sshClient, session, stdin, dialCancel := 0, false, None, None, None, None;
    }

    /** Connect's first section. */
    method BeginConnect() returns (attempt: nat)
      modifies this
      ensures Value() == Beginning(old(Value())) && attempt == gen
    {
      gen := gen + 1;
      attempt := gen;
    }

    /** dialAndHandshake's first section. */
    method BeginDial(attempt: nat) returns (current: bool)
      modifies this
      ensures Value() == Dialing(old(Value()), attempt) && current == (attempt == gen)
    {
      if attempt != gen { return false; }
      dialCancel := Some(attempt);
      return true;
    }

    /** dialAndHandshake's last section. */
    method InstallClient(attempt: nat) returns (current: bool)
      modifies this
      ensures Value() == Installing(old(Value()), attempt) && current == (attempt == gen)
    {
      if attempt != gen { return false; }
      sshClient := Some(attempt);
      return true;
    }

    /** startSession's first section; None is the "not connected" error. */
    method ReadClient() returns (r: Option<Session>)
      ensures r.None? <==> sshClient.None?
      ensures r.Some? ==> r.value.generation == gen && Some(r.value.client) == sshClient
    {
      match sshClient {
        case None => return None;
        case Some(c) => return Some(Session(gen, c));
      }
    }

    /** startSession's second section. */
    method InstallSession(s: Session) returns (current: bool)
      modifies this
      ensures Value() == Starting(old(Value()), s) && current == (s.generation == gen)
    {
      if s.generation != gen { return false; }
      session, stdin := Some(s), Some(s);
      return true;
    }

    method Close() returns (notify: bool)
      modifies this
      ensures Value() == Closing(old(Value())) && notify == !old(closed)
    {
      gen := gen + 1;
      if dialCancel.Some? { dialCancel := None; }
      sshClient, session, stdin := None, None, None;
      notify := !closed;
      closed := true;
    }

    method Reset()
      modifies this
      ensures Value() == Resetting(old(Value()))
    {
      closed := false;
    }

    method NotifyClose(generation: nat) returns (notify: bool)
      modifies this
      ensures Value() == Notifying(old(Value()), generation)
      ensures notify == ReaderNotifies(old(Value()), generation)
    {
      if generation != gen || closed { return false; }
      closed := true;
      return true;
    }
  }

  // ---------------------------------------------------------------------- steps

  datatype Connect = Begun(attempt: Attempt) | Dialed(attempt: Attempt)

  datatype State = State(
    fields: Fields,
    connects: map<Thread, Connect>,    // Connect calls in flight
    starts: map<Thread, Session>,      // StartSession calls waiting for their PTY
    readers: map<Thread, Session>)     // readers whose session has not ended

  const START := State(FRESH, map[], map[], map[])

  datatype Action =
    | BeginConnect(t: Thread) | BeginDial(t: Thread) | InstallClient(t: Thread) | FailConnect(t: Thread)
    | ReadClient(t: Thread) | InstallSession(t: Thread) | FailStart(t: Thread)
    | ReaderEnds(t: Thread)
    | Close | Reset

  /** One step; a step that is not due changes nothing. A stale Connect or StartSession
      returns at the section where it finds itself stale. */
  function Step(s: State, a: Action): State {
    var f := s.fields;
    match a
    case BeginConnect(t) =>
      if t in s.connects then s
      else s.(fields := Beginning(f), connects := s.connects[t := Begun(f.gen + 1)])
    case BeginDial(t) =>
      if t !in s.connects || !s.connects[t].Begun? then s
      else
        var g := s.connects[t].attempt;
        s.(fields := Dialing(f, g),
           connects := if g == f.gen then s.connects[t := Dialed(g)] else s.connects - {t})
    case InstallClient(t) =>
      if t !in s.connects || !s.connects[t].Dialed? then s
      else s.(fields := Installing(f, s.connects[t].attempt), connects := s.connects - {t})
    case FailConnect(t) => s.(connects := s.connects - {t})
    case ReadClient(t) =>
      if t in s.starts || t in s.readers || f.sshClient.None? then s
      else s.(starts := s.starts[t := Session(f.gen, f.sshClient.value)])
    case InstallSession(t) =>
      if t !in s.starts then s
      else
        var started := s.starts[t];
        s.(fields := Starting(f, started), starts := s.starts - {t},
           readers := if started.generation == f.gen then s.readers[t := started] else s.readers)
    case FailStart(t) => s.(starts := s.starts - {t})
    case ReaderEnds(t) =>
      if t !in s.readers then s
      else s.(fields := Notifying(f, s.readers[t].generation), readers := s.readers - {t})
    case Close => s.(fields := Closing(f))
    case Reset => s.(fields := Resetting(f))
  }

  function After(s: State, actions: seq<Action>): State {
    if actions == [] then s
    else Step(After(s, actions[..|actions| - 1]), actions[|actions| - 1])
  }

  /** This step decides to publish OnClose. */
  predicate Decides(s: State, a: Action) {
    || (a.Close? && !s.fields.closed)
    || (a.ReaderEnds? && a.t in s.readers && ReaderNotifies(s.fields, s.readers[a.t].generation))
  }

  function Decisions(s: State, actions: seq<Action>): nat {
    if actions == [] then 0
    else
      var before := actions[..|actions| - 1];
      Decisions(s, before) + if Decides(After(s, before), actions[|before|]) then 1 else 0
  }

  function Resets(actions: seq<Action>): nat {
    if actions == [] then 0
    else Resets(actions[..|actions| - 1]) + if actions[|actions| - 1].Reset? then 1 else 0
  }

  // --------------------------------------------------------------- one-shot close

  /** Over every run OnClose is decided at most once more than the client was reset, and at
      most as often as it was reset while the client stands open. */
  lemma {:induction false} OneCloseEachReset(actions: seq<Action>)
    ensures Decisions(START, actions) <= Resets(actions) + 1
    ensures !After(START, actions).fields.closed ==> Decisions(START, actions) <= Resets(actions)
  {
    if actions != [] {
      OneCloseEachReset(actions[..|actions| - 1]);
    }
  }

  // ------------------------------------------------------------------- ownership

  /** What holds from the Close that drew generation `since` on (or from the start, with 0):
      the fields name only connections made later, a session only stands with a client, and
      calls and readers left over from earlier carry an outdated generation. */
  ghost predicate SinceClose(s: State, since: nat) { FieldsSince(s.fields, since) && CallsSince(s, since) }

  ghost predicate FieldsSince(f: Fields, since: nat) {
    && since <= f.gen
    && (f.sshClient.Some? ==> since < f.sshClient.value <= f.gen)
    && (f.dialCancel.Some? ==> since < f.dialCancel.value <= f.gen)
    && f.stdin == f.session
    && (f.session.Some? ==> f.sshClient.Some? && since < f.session.value.client <= f.session.value.generation <= f.gen)
  }

  ghost predicate CallsSince(s: State, since: nat) {
    && (forall t :: t in s.connects ==> s.connects[t].attempt <= s.fields.gen && s.connects[t].attempt != since)
    && (forall t :: t in s.starts ==> Current(s.fields, s.starts[t], since) && t !in s.readers)
    && (forall t :: t in s.readers ==> Current(s.fields, s.readers[t], since))
  }

  ghost predicate Current(f: Fields, x: Session, since: nat) {
    && x.client <= x.generation <= f.gen && x.client != since
    && (x.generation == f.gen ==> since < x.client && f.sshClient.Some?)
  }

  lemma StepFieldsSince(s: State, since: nat, a: Action)
    requires SinceClose(s, since)
    ensures FieldsSince(Step(s, a).fields, since)
  {
  }

  lemma StepCallsSince(s: State, since: nat, a: Action)
    requires SinceClose(s, since)
    ensures CallsSince(Step(s, a), since)
  {
  }

  lemma {:induction false} RunSinceClose(s: State, since: nat, actions: seq<Action>)
    requires SinceClose(s, since)
    ensures SinceClose(After(s, actions), since)
  {
    if actions != [] {
      RunSinceClose(s, since, actions[..|actions| - 1]);
      StepFieldsSince(After(s, actions[..|actions| - 1]), since, actions[|actions| - 1]);
      StepCallsSince(After(s, actions[..|actions| - 1]), since, actions[|actions| - 1]);
    }
  }

  lemma AfterSnoc(s: State, actions: seq<Action>, a: Action)
    ensures After(s, actions + [a]) == Step(After(s, actions), a)
  {
    assert (actions + [a])[..|actions|] == actions;
  }

  lemma CloseStarts(s: State)
    requires SinceClose(s, 0)
    ensures SinceClose(Step(s, Close), s.fields.gen + 1)
  {
  }

  // --------------------------------------------- nothing comes back after a Close

  predicate Begins(s: State, a: Action) { a.BeginConnect? && a.t !in s.connects }

  /** The attempt is mentioned anywhere: by a field, a call in flight or a reader. */
  ghost predicate Names(s: State, g: Attempt) {
    || s.fields.sshClient == Some(g)
    || s.fields.dialCancel == Some(g)
    || (s.fields.session.Some? && s.fields.session.value.client == g)
    || (exists t :: t in s.connects && s.connects[t].attempt == g)
    || (exists t :: t in s.starts && s.starts[t].client == g)
    || (exists t :: t in s.readers && s.readers[t].client == g)
  }

  /** One of the run's steps begins the Connect that draws generation `g`. */
  ghost predicate BegunIn(s: State, actions: seq<Action>, g: Attempt) {
    exists k :: 0 <= k < |actions| && Begins(After(s, actions[..k]), actions[k])
                && After(s, actions[..k]).fields.gen + 1 == g
  }

  lemma OnlyConnectsName(s: State, a: Action, g: Attempt)
    requires Names(Step(s, a), g) && !Names(s, g)
    ensures Begins(s, a) && g == s.fields.gen + 1
  {
  }

  lemma BegunExtends(s: State, actions: seq<Action>, g: Attempt)
    requires actions != [] && BegunIn(s, actions[..|actions| - 1], g)
    ensures BegunIn(s, actions, g)
  {
    var before := actions[..|actions| - 1];
    var k :| 0 <= k < |before| && Begins(After(s, before[..k]), before[k])
             && After(s, before[..k]).fields.gen + 1 == g;
    assert before[..k] == actions[..k] && before[k] == actions[k];
    assert Begins(After(s, actions[..k]), actions[k]);
  }

  lemma {:induction false} NamedWasBegun(s: State, actions: seq<Action>, g: Attempt)
    requires Names(After(s, actions), g) && !Names(s, g)
    ensures BegunIn(s, actions, g)
  {
    if actions != [] {
      var before := actions[..|actions| - 1];
      if Names(After(s, before), g) {
        NamedWasBegun(s, before, g);
        BegunExtends(s, actions, g);
      } else {
        OnlyConnectsName(After(s, before), actions[|before|], g);
        assert Begins(After(s, actions[..|before|]), actions[|before|]);
      }
    }
  }

  lemma NotNamedAtClose(s: State, g: Attempt)
    requires SinceClose(s, 0) && g > s.fields.gen
    ensures !Names(Step(s, Close), g)
  {
  }

  /** The state reached by closing after `before` and going on with `between`. */
  ghost function AfterClose(before: seq<Action>, between: seq<Action>): State {
    After(Step(After(START, before), Close), between)
  }

  lemma AfterCloseHolds(before: seq<Action>, between: seq<Action>)
    ensures var s := After(START, before);
            && SinceClose(s, 0)
            && SinceClose(AfterClose(before, between), s.fields.gen + 1)
  {
    RunSinceClose(START, 0, before);
    var s := After(START, before);
    CloseStarts(s);
    RunSinceClose(Step(s, Close), s.fields.gen + 1, between);
  }

  lemma NamedAfterClose(before: seq<Action>, between: seq<Action>, g: Attempt)
    requires Names(AfterClose(before, between), g) && g > After(START, before).fields.gen
    ensures BegunIn(Step(After(START, before), Close), between, g)
  {
    AfterCloseHolds(before, between);
    NotNamedAtClose(After(START, before), g);
    NamedWasBegun(Step(After(START, before), Close), between, g);
  }

  /** Whatever was in flight, after a Close the client, session, stdin and dial cancel stay
      nil until a Connect begun after that Close sets them; a session and its stdin are set
      together, and only over a client that is set. */
  lemma ClosedStaysEmpty(before: seq<Action>, between: seq<Action>)
    ensures var closed := Step(After(START, before), Close);
            var f := AfterClose(before, between).fields;
            && (f.sshClient.Some? ==> BegunIn(closed, between, f.sshClient.value))
            && (f.dialCancel.Some? ==> BegunIn(closed, between, f.dialCancel.value))
            && f.stdin == f.session
            && (f.session.Some? ==> f.sshClient.Some? && BegunIn(closed, between, f.session.value.client))
  {
    AfterCloseHolds(before, between);
    var f := AfterClose(before, between).fields;
    if f.sshClient.Some? { NamedAfterClose(before, between, f.sshClient.value); }
    if f.dialCancel.Some? { NamedAfterClose(before, between, f.dialCancel.value); }
    if f.session.Some? { NamedAfterClose(before, between, f.session.value.client); }
  }

  // --------------------------------------------------------------- stale readers

  lemma StepGenerationGrows(s: State, a: Action)
    ensures s.fields.gen <= Step(s, a).fields.gen
  {
  }

  lemma {:induction false} GenerationGrows(s: State, actions: seq<Action>)
    ensures s.fields.gen <= After(s, actions).fields.gen
  {
    if actions != [] {
      GenerationGrows(s, actions[..|actions| - 1]);
      StepGenerationGrows(After(s, actions[..|actions| - 1]), actions[|actions| - 1]);
    }
  }

  /** The reader of thread `t` runs throughout. */
  ghost predicate SameReader(s: State, t: Thread, actions: seq<Action>) {
    forall k :: 0 <= k <= |actions| ==> t in After(s, actions[..k]).readers
  }

  lemma StepKeepsReader(s: State, t: Thread, a: Action)
    requires t in s.readers && t !in s.starts && t in Step(s, a).readers
    ensures Step(s, a).readers[t] == s.readers[t] && t !in Step(s, a).starts
  {
  }

  lemma {:induction false} SameReaderKeepsSession(s: State, t: Thread, actions: seq<Action>)
    requires SameReader(s, t, actions) && t !in s.starts
    ensures t in s.readers && t in After(s, actions).readers && t !in After(s, actions).starts
    ensures After(s, actions).readers[t] == s.readers[t]
  {
    assert actions[..|actions|] == actions;
    assert actions[..0] == [];
    if actions != [] {
      var before := actions[..|actions| - 1];
      assert forall k :: 0 <= k <= |before| ==> before[..k] == actions[..k];
      SameReaderKeepsSession(s, t, before);
      StepKeepsReader(After(s, before), t, actions[|before|]);
    }
  }

  /** A reader running when a Connect begins or a Close happens never decides OnClose
      afterwards, however the steps interleave. */
  lemma StaleReaderStaysSilent(before: seq<Action>, bump: Action, t: Thread, between: seq<Action>)
    requires bump.Close? || Begins(After(START, before), bump)
    requires SameReader(Step(After(START, before), bump), t, between)
    ensures !Decides(After(Step(After(START, before), bump), between), ReaderEnds(t))
  {
    var s := After(START, before);
    RunSinceClose(START, 0, before);
    assert between[..0] == [] && t in After(Step(s, bump), between[..0]).readers;
    assert Step(s, bump).readers == s.readers;
    SameReaderKeepsSession(Step(s, bump), t, between);
    GenerationGrows(Step(s, bump), between);
    assert Current(s.fields, s.readers[t], 0);
  }

  /** A reader that decides OnClose after a Close serves a connection begun after it. */
  lemma DecidingReaderIsNew(before: seq<Action>, between: seq<Action>, t: Thread)
    requires Decides(AfterClose(before, between), ReaderEnds(t))
    ensures BegunIn(Step(After(START, before), Close), between, AfterClose(before, between).readers[t].client)
  {
    AfterCloseHolds(before, between);
    var s := AfterClose(before, between);
    assert Current(s.fields, s.readers[t], After(START, before).fields.gen + 1);
    NamedAfterClose(before, between, s.readers[t].client);
  }

  // ------------------------------------------- which connection a session serves

  /** The state before step `k` of a run. */
  ghost function At(actions: seq<Action>, k: nat): State
    requires k <= |actions|
  {
    After(START, actions[..k])
  }

  lemma AtStep(actions: seq<Action>, k: nat)
    requires k < |actions|
    ensures At(actions, k + 1) == Step(At(actions, k), actions[k])
  {
    assert actions[..k + 1][..k] == actions[..k];
  }

  lemma AtHolds(actions: seq<Action>, k: nat)
    requires k <= |actions|
    ensures SinceClose(At(actions, k), 0)
  {
    RunSinceClose(START, 0, actions[..k]);
  }

  /** This step is the section in which a StartSession of thread `t` reads the client. */
  predicate Reads(s: State, a: Action, t: Thread) {
    a == ReadClient(t) && t !in s.starts && t !in s.readers && s.fields.sshClient.Some?
  }

  ghost predicate LastRead(actions: seq<Action>, k: nat, n: nat, t: Thread)
    requires n <= |actions|
  {
    k < n && ReadsAt(actions, k, t) && forall j :: k < j < n ==> !ReadsAt(actions, j, t)
  }

  ghost predicate ReadsAt(actions: seq<Action>, k: nat, t: Thread)
    requires k < |actions|
  {
    Reads(At(actions, k), actions[k], t)
  }

  /** This step installs the client of attempt `g`. */
  predicate Installs(s: State, a: Action, g: Attempt) {
    a.InstallClient? && a.t in s.connects && s.connects[a.t] == Dialed(g) && g == s.fields.gen
  }

  ghost predicate InstalledBefore(actions: seq<Action>, k: nat, g: Attempt)
    requires k <= |actions|
  {
    exists j :: 0 <= j < k && Installs(At(actions, j), actions[j], g)
  }

  lemma InstalledBeforeStep(actions: seq<Action>, k: nat, g: Attempt)
    requires k < |actions|
    ensures InstalledBefore(actions, k + 1, g) <==>
            InstalledBefore(actions, k, g) || Installs(At(actions, k), actions[k], g)
  {
    if InstalledBefore(actions, k, g) {
      var j :| 0 <= j < k && Installs(At(actions, j), actions[j], g);
      assert 0 <= j < k + 1;
    }
  }

  lemma StepClient(s: State, a: Action)
    requires SinceClose(s, 0)
    ensures var f, f' := s.fields, Step(s, a).fields;
            if f'.gen == f.gen
            then f'.sshClient == Some(f.gen) <==> f.sshClient == Some(f.gen) || Installs(s, a, f.gen)
            else f.gen < f'.gen && f'.sshClient != Some(f'.gen)
  {
  }

  lemma {:induction false} GenerationsSoFar(actions: seq<Action>, j: nat, k: nat)
    requires j <= k <= |actions|
    ensures At(actions, j).fields.gen <= At(actions, k).fields.gen
    decreases k
  {
    if j < k {
      GenerationsSoFar(actions, j, k - 1);
      AtStep(actions, k - 1);
      StepGenerationGrows(At(actions, k - 1), actions[k - 1]);
    }
  }

  /** Nothing was installed for a generation that had not been drawn. */
  lemma NotInstalledBefore(actions: seq<Action>, k: nat, g: Attempt)
    requires k <= |actions| && At(actions, k).fields.gen < g
    ensures !InstalledBefore(actions, k, g)
  {
    forall j | 0 <= j < k ensures !Installs(At(actions, j), actions[j], g) {
      GenerationsSoFar(actions, j, k);
    }
  }

  /** While the generation lasts, the client in place is the attempt's own exactly from the
      step that installs it. */
  lemma {:induction false} InstalledExactly(actions: seq<Action>, k: nat)
    requires k <= |actions|
    ensures var f := At(actions, k).fields;
            f.sshClient == Some(f.gen) <==> InstalledBefore(actions, k, f.gen)
    decreases k
  {
    if k > 0 {
      var s, a := At(actions, k - 1), actions[k - 1];
      AtStep(actions, k - 1);
      AtHolds(actions, k - 1);
      StepClient(s, a);
      var g := Step(s, a).fields.gen;
      InstalledBeforeStep(actions, k - 1, g);
      if g == s.fields.gen {
        InstalledExactly(actions, k - 1);
      } else {
        NotInstalledBefore(actions, k - 1, g);
      }
    }
  }

  /** The session a thread's start in flight or running reader carries. */
  function Held(s: State, t: Thread): Option<Session> {
    if t in s.readers then Some(s.readers[t]) else if t in s.starts then Some(s.starts[t]) else None
  }

  lemma HeldStep(s: State, a: Action, t: Thread)
    requires SinceClose(s, 0) && Held(Step(s, a), t).Some?
    ensures Held(Step(s, a), t) ==
            if Reads(s, a, t) then Some(Session(s.fields.gen, s.fields.sshClient.value)) else Held(s, t)
  {
  }

  lemma NothingHeldAtStart(actions: seq<Action>, t: Thread)
    ensures Held(At(actions, 0), t).None?
  {
    assert actions[..0] == [];
  }

  lemma HeldNext(actions: seq<Action>, n: nat, t: Thread)
    requires n < |actions| && Held(At(actions, n + 1), t).Some?
    ensures var s := At(actions, n);
            Held(At(actions, n + 1), t) ==
            if Reads(s, actions[n], t) then Some(Session(s.fields.gen, s.fields.sshClient.value)) else Held(s, t)
  {
    AtStep(actions, n);
    AtHolds(actions, n);
    HeldStep(At(actions, n), actions[n], t);
  }

  /** What is carried is what the thread's last read saw. */
  lemma {:induction false} HeldWasRead(actions: seq<Action>, n: nat, t: Thread) returns (k: nat)
    requires n <= |actions| && Held(At(actions, n), t).Some?
    ensures LastRead(actions, k, n, t)
    ensures var f := At(actions, k).fields;
            f.sshClient.Some? && Held(At(actions, n), t) == Some(Session(f.gen, f.sshClient.value))
    decreases n
  {
    NothingHeldAtStart(actions, t);
    HeldNext(actions, n - 1, t);
    if ReadsAt(actions, n - 1, t) {
      k := n - 1;
    } else {
      k := HeldWasRead(actions, n - 1, t);
    }
  }

  /** Over every run: a reader serves the connection of the attempt it is numbered with if
      and only if that attempt had installed its client when the session start read it. A
      Connect alone does not retire the previous connection: a session started while the new
      attempt is still dialing carries the new generation over the old connection. */
  lemma ReaderServesAttemptExactly(actions: seq<Action>, t: Thread) returns (k: nat)
    requires t in At(actions, |actions|).readers
    ensures LastRead(actions, k, |actions|, t)
    ensures var x := At(actions, |actions|).readers[t];
            x.client == x.generation <==> InstalledBefore(actions, k, x.generation)
  {
    k := HeldWasRead(actions, |actions|, t);
    InstalledExactly(actions, k);
  }

  /** So a reader decides OnClose for an attempt whose connection it does not serve exactly
      when that attempt had installed nothing by the session's last read; it then serves an
      older connection. */
  lemma DecidesForAnotherExactly(actions: seq<Action>, t: Thread) returns (k: nat)
    requires Decides(At(actions, |actions|), ReaderEnds(t))
    ensures LastRead(actions, k, |actions|, t)
    ensures var s := At(actions, |actions|);
            s.readers[t].client < s.fields.gen <==> !InstalledBefore(actions, k, s.fields.gen)
  {
    var s := At(actions, |actions|);
    AtHolds(actions, |actions|);
    k := ReaderServesAttemptExactly(actions, t);
    assert Current(s.fields, s.readers[t], 0);
  }

  /** It happens: attempt 2 has begun, a session is started over attempt 1's client, and its
      end is published as the end of attempt 2. */
  lemma OldConnectionClosesNewAttempt()
    ensures var connect := [BeginConnect(0), BeginDial(0), InstallClient(0), BeginConnect(0)];
            var s := After(START, connect + [ReadClient(1)] + [InstallSession(1)]);
            Decides(s, ReaderEnds(1)) && s.fields.gen == 2 && s.readers[1] == Session(2, 1)
  {
    var two := [] + [BeginConnect(0)] + [BeginDial(0)];
    AfterSnoc(START, [], BeginConnect(0));
    AfterSnoc(START, [] + [BeginConnect(0)], BeginDial(0));
    assert After(START, two) == State(FRESH.(gen := 1, dialCancel := Some(1)), map[0 := Dialed(1)], map[], map[]);
    AfterSnoc(START, two, InstallClient(0));
    AfterSnoc(START, two + [InstallClient(0)], BeginConnect(0));
    var connect := [BeginConnect(0), BeginDial(0), InstallClient(0), BeginConnect(0)];
    assert two + [InstallClient(0)] + [BeginConnect(0)] == connect;
    AfterSnoc(START, connect, ReadClient(1));
    AfterSnoc(START, connect + [ReadClient(1)], InstallSession(1));
  }
}
