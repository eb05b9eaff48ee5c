/** The WireGuard interface monitor (client/internal/wg_iface_monitor*.go): the
    event-driven Linux watcher against the polling watcher, over every interleaving
    of kernel link changes with the watcher's own steps. */
module IfaceMonitor {
  import opened Common

  /** The kernel's link table: index to name. */
  type Links = map<int, string>

  datatype LinkEvent = DelLink(index: int, name: string) | NewLink(index: int, name: string)

  datatype Cause = Deleted | Recreated | Renamed

  // --------------------------------------------------------------- classifiers

  function InspectDelLink(index: int, expected: int): Option<Cause> {
    if index != expected then None else Some(Deleted)
  }

  function InspectNewLink(index: int, eventName: string, name: string, expected: int): Option<Cause> {
    if eventName == name && index != expected then Some(Recreated)
    else if index == expected && eventName != "" && eventName != name then Some(Renamed)
    else None
  }

  function InspectLinkEvent(ev: LinkEvent, name: string, expected: int): Option<Cause> {
    match ev
    case DelLink(index, _) => InspectDelLink(index, expected)
    case NewLink(index, eventName) => InspectNewLink(index, eventName, name, expected)
  }

  predicate Triggers(ev: LinkEvent, name: string, expected: int) {
    InspectLinkEvent(ev, name, expected).Some?
  }

  // --------------------------------------------------------------------- kernel

  ghost predicate NamesUnique(links: Links) {
    && (forall i :: i in links ==> links[i] != "")
    && (forall i, j :: i in links && j in links && links[i] == links[j] ==> i == j)
  }

  predicate Free(links: Links, name: string, but: int) {
    name != "" && forall i :: i in links && i != but ==> links[i] != name
  }

  datatype Change =
    | Delete(index: int)
    | Create(index: int, name: string)
    | Rename(index: int, name: string)
    | Touch(index: int)

  predicate Possible(links: Links, k: Change) {
    match k
    case Delete(i) => i in links
    case Create(i, n) => i !in links && Free(links, n, i)
    case Rename(i, n) => i in links && Free(links, n, i)
    case Touch(i) => i in links
  }

  function Changed(links: Links, k: Change): Links {
    match k
    case Delete(i) => links - {i}
    case Create(i, n) => links[i := n]
    case Rename(i, n) => links[i := n]
    case Touch(_) => links
  }

  /** The event the kernel publishes, atomically with the change. */
  function Published(links: Links, k: Change): LinkEvent
    requires Possible(links, k)
  {
    match k
    case Delete(i) => DelLink(i, links[i])
    case Create(i, n) => NewLink(i, n)
    case Rename(i, n) => NewLink(i, n)
    case Touch(i) => NewLink(i, links[i])
  }

  predicate Has(links: Links, name: string, index: int) {
    index in links && links[index] == name
  }

  /** getInterfaceIndex: the index the name resolves to. */
  ghost function IndexOf(links: Links, name: string): Option<int> {
    if i :| Has(links, name, i) then Some(i) else None
  }

  lemma IndexOfHas(links: Links, name: string, index: int)
    requires NamesUnique(links)
    ensures IndexOf(links, name) == Some(index) <==> Has(links, name, index)
  {
  }

  // -------------------------------------------------------------------- watcher

  datatype Reason = SubscribeFailed | Rechecked | Event(cause: Cause) | ChannelClosed

  datatype Phase =
    | Begin
    | NotFound
    | Read(expected: int)             // first index read, not yet subscribed
    | Subscribed(expected: int)       // subscribed, not yet re-checked
    | Waiting(expected: int)          // in the select loop
    | Restart(expected: int, reason: Reason)
    | Cancelled(expected: int)

  datatype State = State(links: Links, phase: Phase, queue: seq<LinkEvent>, closed: bool)

  datatype Action =
    | Kernel(change: Change)
    | FirstRead
    | Subscribe(ok: bool)
    | Recheck
    | Receive
    | Cancel
    | CloseChannel      // the subscription goroutine gives up: later events are lost

  predicate Listening(p: Phase) { p.Subscribed? || p.Waiting? }

  /** One step of the kernel or the watcher on interface `name`; a step that is not due changes nothing. */
  ghost function Step(name: string, s: State, a: Action): State {
    match a
    case Kernel(k) =>
      if !Possible(s.links, k) then s
      else s.(links := Changed(s.links, k),
              queue := if Listening(s.phase) && !s.closed then s.queue + [Published(s.links, k)] else s.queue)
    case FirstRead =>
      if !s.phase.Begin? then s
      else (match IndexOf(s.links, name)
            case None => s.(phase := NotFound)
            case Some(i) => s.(phase := Read(i)))
    case Subscribe(ok) =>
      if !s.phase.Read? then s
      else if ok then s.(phase := Subscribed(s.phase.expected))
      else s.(phase := Restart(s.phase.expected, SubscribeFailed))
    case Recheck =>
      if !s.phase.Subscribed? then s
      else if IndexOf(s.links, name) == Some(s.phase.expected) then s.(phase := Waiting(s.phase.expected))
      else s.(phase := Restart(s.phase.expected, Rechecked))
    case Receive =>
      if !s.phase.Waiting? then s
      else if s.queue != [] then
        (match InspectLinkEvent(s.queue[0], name, s.phase.expected)
         case None => s.(queue := s.queue[1..])
         case Some(cause) => s.(queue := s.queue[1..], phase := Restart(s.phase.expected, Event(cause))))
      else if s.closed then s.(phase := Restart(s.phase.expected, ChannelClosed))
      else s
    case Cancel => if s.phase.Waiting? then s.(phase := Cancelled(s.phase.expected)) else s
    case CloseChannel => if Listening(s.phase) then s.(closed := true) else s
  }

  /** The state after a sequence of steps, from a given link table. */
  ghost function After(name: string, links: Links, actions: seq<Action>): State {
    if actions == [] then State(links, Begin, [], false)
    else Step(name, After(name, links, actions[..|actions| - 1]), actions[|actions| - 1])
  }

  /** What a tick of the polling watcher would report as lost. */
  predicate Lost(name: string, s: State) {
    !s.phase.Begin? && !s.phase.NotFound? && !Has(s.links, name, s.phase.expected)
  }

  ghost predicate TriggerQueued(name: string, s: State) {
    Listening(s.phase) && exists i :: 0 <= i < |s.queue| && Triggers(s.queue[i], name, s.phase.expected)
  }

  ghost predicate Sound(name: string, s: State) {
    && NamesUnique(s.links)
    && (s.phase.Waiting? ==> !Lost(name, s) || s.closed || TriggerQueued(name, s))
  }

  lemma KernelKeepsNames(links: Links, k: Change)
    requires NamesUnique(links) && Possible(links, k)
    ensures NamesUnique(Changed(links, k))
  {
  }

  /** A change that takes the name off its index publishes an event the watcher acts on. */
  lemma LossIsPublished(links: Links, k: Change, name: string, expected: int)
    requires NamesUnique(links) && Possible(links, k) && Has(links, name, expected)
    requires !Has(Changed(links, k), name, expected)
    ensures Triggers(Published(links, k), name, expected)
  {
  }

  /** An event the watcher acts on is published with a table in which the name is not at its index. */
  lemma TriggerIsLoss(links: Links, k: Change, name: string, expected: int)
    requires NamesUnique(links) && Possible(links, k)
    requires Triggers(Published(links, k), name, expected)
    ensures !Has(Changed(links, k), name, expected)
  {
    KernelKeepsNames(links, k);
  }

  /** A queued trigger stays queued until the watcher restarts or is cancelled. */
  lemma TriggerPersists(name: string, s: State, a: Action)
    requires TriggerQueued(name, s) && Listening(Step(name, s, a).phase)
    ensures TriggerQueued(name, Step(name, s, a))
  {
    var s' := Step(name, s, a);
    var i :| 0 <= i < |s.queue| && Triggers(s.queue[i], name, s.phase.expected);
    if a == Receive && s.phase.Waiting? {
      assert i > 0;
      assert s'.queue[i - 1] == s.queue[i];
    } else {
      assert s'.queue[i] == s.queue[i];
    }
  }

  lemma StepSound(name: string, s: State, a: Action)
    requires Sound(name, s)
    ensures Sound(name, Step(name, s, a))
  {
    var s' := Step(name, s, a);
    if a.Kernel? && Possible(s.links, a.change) {
      KernelKeepsNames(s.links, a.change);
      if s.phase.Waiting? && !s.closed && Lost(name, s') {
        if Lost(name, s) {
          TriggerPersists(name, s, a);
        } else {
          LossIsPublished(s.links, a.change, name, s.phase.expected);
          assert s'.queue[|s.queue|] == Published(s.links, a.change);
        }
      }
    } else if s'.phase.Waiting? {
      if s.phase.Subscribed? {
        IndexOfHas(s.links, name, s.phase.expected);
      } else if TriggerQueued(name, s) {
        TriggerPersists(name, s, a);
      }
    }
  }

  lemma {:induction false} AfterSound(name: string, links: Links, actions: seq<Action>)
    requires NamesUnique(links)
    ensures Sound(name, After(name, links, actions))
  {
    if actions != [] {
      AfterSound(name, links, actions[..|actions| - 1]);
      StepSound(name, After(name, links, actions[..|actions| - 1]), actions[|actions| - 1]);
    }
  }

  /** In every interleaving, a watcher still waiting on an open subscription with its
      events drained is watching an interface that is really there. */
  lemma DrainedMeansPresent(name: string, links: Links, actions: seq<Action>)
    requires NamesUnique(links)
    requires var s := After(name, links, actions); s.phase.Waiting? && s.queue == [] && !s.closed
    ensures var s := After(name, links, actions); IndexOf(s.links, name) == Some(s.phase.expected)
  {
    var s := After(name, links, actions);
    AfterSound(name, links, actions);
    IndexOfHas(s.links, name, s.phase.expected);
  }

  // ------------------------------------------------------------- no false alarm

  /** At some instant since the first read the poller would have reported a loss. */
  ghost predicate WasLost(name: string, links: Links, actions: seq<Action>) {
    exists k :: 0 <= k <= |actions| && Lost(name, After(name, links, actions[..k]))
  }

  ghost predicate AlarmsJustified(name: string, links: Links, actions: seq<Action>) {
    var s := After(name, links, actions);
    (TriggerQueued(name, s) || (s.phase.Restart? && (s.phase.reason.Event? || s.phase.reason.Rechecked?))) ==>
      WasLost(name, links, actions)
  }

  lemma WasLostExtends(name: string, links: Links, actions: seq<Action>)
    requires actions != [] && WasLost(name, links, actions[..|actions| - 1])
    ensures WasLost(name, links, actions)
  {
    var k :| 0 <= k <= |actions| - 1 && Lost(name, After(name, links, actions[..|actions| - 1][..k]));
    assert actions[..|actions| - 1][..k] == actions[..k];
  }

  lemma WasLostNow(name: string, links: Links, actions: seq<Action>)
    requires Lost(name, After(name, links, actions))
    ensures WasLost(name, links, actions)
  {
    assert actions[..|actions|] == actions;
  }

  /** A restart on an event or on the re-check always has a real loss behind it. */
  lemma {:induction false} RestartIsJustified(name: string, links: Links, actions: seq<Action>)
    requires NamesUnique(links)
    ensures AlarmsJustified(name, links, actions)
  {
    if actions != [] {
      var before := actions[..|actions| - 1];
      var a := actions[|actions| - 1];
      var s, s' := After(name, links, before), After(name, links, actions);
      RestartIsJustified(name, links, before);
      AfterSound(name, links, before);
      if WasLost(name, links, before) {
        WasLostExtends(name, links, actions);
      } else if a.Kernel? && Possible(s.links, a.change) && TriggerQueued(name, s') {
        var i :| 0 <= i < |s'.queue| && Triggers(s'.queue[i], name, s'.phase.expected);
        assert i == |s.queue|;
        TriggerIsLoss(s.links, a.change, name, s.phase.expected);
        WasLostNow(name, links, actions);
      } else if a == Recheck && s.phase.Subscribed? && s'.phase.Restart? {
        IndexOfHas(s.links, name, s.phase.expected);
        WasLostNow(name, links, actions);
      } else if a == Receive && s.phase.Waiting? && s.queue != [] {
        assert !Triggers(s.queue[0], name, s.phase.expected);
        assert forall i :: 0 <= i < |s'.queue| ==> s'.queue[i] == s.queue[i + 1];
      } else if TriggerQueued(name, s') {
        // A phase change alone never queues a trigger; a fresh subscription starts empty.
        if !Listening(s.phase) {
          QueueEmptyBeforeListening(name, links, before);
        }
      }
    }
  }

  lemma {:induction false} QueueEmptyBeforeListening(name: string, links: Links, actions: seq<Action>)
    ensures var s := After(name, links, actions);
            s.phase.Begin? || s.phase.NotFound? || s.phase.Read? ==> s.queue == [] && !s.closed
  {
    if actions != [] {
      QueueEmptyBeforeListening(name, links, actions[..|actions| - 1]);
    }
  }

  // --------------------------------------------------- nothing missed, and when

  /** After the re-check, whatever a poller tick would report at any instant `k`, the
      Linux watcher has reported (or been cancelled) by the time its events are drained. */
  lemma {:induction false} NothingMissedSinceRecheck(name: string, links: Links, actions: seq<Action>, k: nat)
    requires NamesUnique(links) && k <= |actions|
    requires After(name, links, actions[..k]).phase.Waiting? && Lost(name, After(name, links, actions[..k]))
    ensures var s := After(name, links, actions); s.phase.Waiting? ==> s.closed || TriggerQueued(name, s)
    decreases |actions|
  {
    if k == |actions| {
      assert actions[..k] == actions;
      AfterSound(name, links, actions);
    } else {
      var before := actions[..|actions| - 1];
      assert before[..k] == actions[..k];
      NothingMissedSinceRecheck(name, links, before, k);
      var s, a := After(name, links, before), actions[|actions| - 1];
      if Step(name, s, a).phase.Waiting? {
        PhaseOrder(name, links, actions, k);
        PhaseOrder(name, links, before, k);
        if TriggerQueued(name, s) {
          TriggerPersists(name, s, a);
        }
      }
    }
  }

  lemma StepPhaseOrder(name: string, s: State, a: Action)
    requires s.phase.Waiting? || s.phase.Restart? || s.phase.Cancelled?
    ensures var p := Step(name, s, a).phase; p.Waiting? || p.Restart? || p.Cancelled?
  {
  }

  /** Once in the select loop, the watcher never returns to an earlier phase. */
  lemma {:induction false} PhaseOrder(name: string, links: Links, actions: seq<Action>, k: nat)
    requires k <= |actions| && After(name, links, actions[..k]).phase.Waiting?
    ensures var p := After(name, links, actions).phase; p.Waiting? || p.Restart? || p.Cancelled?
    decreases |actions|
  {
    if k == |actions| {
      assert actions[..k] == actions;
    } else {
      var before := actions[..|actions| - 1];
      assert before[..k] == actions[..k];
      PhaseOrder(name, links, before, k);
      StepPhaseOrder(name, After(name, links, before), actions[|before|]);
    }
  }

  /** A trigger published while listening, or a re-check that found the interface lost. */
  ghost predicate Noticed(name: string, links: Links, actions: seq<Action>, k: nat)
    requires k < |actions|
  {
    var s, a := After(name, links, actions[..k]), actions[k];
    || (a.Kernel? && Possible(s.links, a.change) && Listening(s.phase) && !s.closed &&
        Triggers(Published(s.links, a.change), name, s.phase.expected))
    || (a == Recheck && s.phase.Subscribed? && Lost(name, s))
  }

  ghost predicate EverNoticed(name: string, links: Links, actions: seq<Action>) {
    exists k :: 0 <= k < |actions| && Noticed(name, links, actions, k)
  }

  lemma EverNoticedStep(name: string, links: Links, actions: seq<Action>)
    requires actions != []
    ensures EverNoticed(name, links, actions) <==>
            EverNoticed(name, links, actions[..|actions| - 1]) || Noticed(name, links, actions, |actions| - 1)
  {
    var before := actions[..|actions| - 1];
    assert forall k :: 0 <= k < |before| ==> before[..k] == actions[..k] && before[k] == actions[k];
    if EverNoticed(name, links, before) {
      var k :| 0 <= k < |before| && Noticed(name, links, before, k);
      assert Noticed(name, links, actions, k);
    }
    if k :| 0 <= k < |before| && Noticed(name, links, actions, k) {
      assert Noticed(name, links, before, k);
    }
  }

  /** While the watcher listens, only a triggering event published now adds a queued trigger. */
  lemma QueuedByPublishing(name: string, s: State, a: Action)
    requires Listening(s.phase) && Listening(Step(name, s, a).phase)
    ensures TriggerQueued(name, Step(name, s, a)) <==>
            || TriggerQueued(name, s)
            || (a.Kernel? && Possible(s.links, a.change) && !s.closed &&
                Triggers(Published(s.links, a.change), name, s.phase.expected))
  {
    var s' := Step(name, s, a);
    if a == Receive && s.phase.Waiting? && s.queue != [] {
      assert forall i :: 0 <= i < |s'.queue| ==> s'.queue[i] == s.queue[i + 1];
    } else {
      assert forall i :: 0 <= i < |s.queue| ==> s'.queue[i] == s.queue[i];
    }
    if a.Kernel? && Possible(s.links, a.change) && !s.closed {
      assert s'.queue[|s.queue|] == Published(s.links, a.change);
    }
    if TriggerQueued(name, s) { TriggerPersists(name, s, a); }
  }

  lemma {:induction false} NoticedInvariant(name: string, links: Links, actions: seq<Action>)
    requires NamesUnique(links)
    ensures var s := After(name, links, actions);
            && (Listening(s.phase) ==> (EverNoticed(name, links, actions) <==> TriggerQueued(name, s)))
            && (s.phase.Restart? && (s.phase.reason.Event? || s.phase.reason.Rechecked?) ==>
                  EverNoticed(name, links, actions))
            && (s.phase.Begin? || s.phase.NotFound? || s.phase.Read? ==> !EverNoticed(name, links, actions))
  {
    if actions != [] {
      var before := actions[..|actions| - 1];
      var a := actions[|actions| - 1];
      var s, s' := After(name, links, before), After(name, links, actions);
      NoticedInvariant(name, links, before);
      AfterSound(name, links, before);
      QueueEmptyBeforeListening(name, links, before);
      EverNoticedStep(name, links, actions);
      if s.phase.Subscribed? {
        IndexOfHas(s.links, name, s.phase.expected);
      }
      if Listening(s.phase) && Listening(s'.phase) { QueuedByPublishing(name, s, a); }
    }
  }

  /** The exact condition: a watcher has restarted on an event or on its re-check, or waits
      with its events drained; it has restarted if and only if a trigger was published since
      it subscribed or the re-check found the interface lost. */
  lemma RestartExactly(name: string, links: Links, actions: seq<Action>)
    requires NamesUnique(links)
    requires var s := After(name, links, actions);
             || (s.phase.Waiting? && s.queue == [])
             || (s.phase.Restart? && (s.phase.reason.Event? || s.phase.reason.Rechecked?))
    ensures After(name, links, actions).phase.Restart? <==> EverNoticed(name, links, actions)
  {
    NoticedInvariant(name, links, actions);
  }

  /** A rename that is undone between the first read and the subscription: a poller tick
      in between reports it, the Linux watcher waits on, drained and open. */
  lemma HealedBeforeSubscriptionIsMissed()
    ensures var links := map[7 := "wt0"];
            var actions := [FirstRead, Kernel(Rename(7, "tmp")), Kernel(Rename(7, "wt0")), Subscribe(true), Recheck];
            var s := After("wt0", links, actions);
            && s.phase == Waiting(7) && s.queue == [] && !s.closed
            && Lost("wt0", After("wt0", links, actions[..2]))
  {
    var links := map[7 := "wt0"];
    var actions := [FirstRead, Kernel(Rename(7, "tmp")), Kernel(Rename(7, "wt0")), Subscribe(true), Recheck];
    assert actions[..5] == actions;
    forall k | 0 <= k < 5 ensures actions[..k + 1][..k] == actions[..k] && actions[..k + 1][k] == actions[k] {
    }
    IndexOfHas(links, "wt0", 7);
    assert After("wt0", links, actions[..0]) == State(links, Begin, [], false);
    assert After("wt0", links, actions[..1]) == State(links, Read(7), [], false);
    assert After("wt0", links, actions[..2]) == State(map[7 := "tmp"], Read(7), [], false);
    assert After("wt0", links, actions[..3]) == State(links, Read(7), [], false);
    assert After("wt0", links, actions[..4]) == State(links, Subscribed(7), [], false);
  }

  // ----------------------------------------------------- in the poller's terms

  /** The state before step `k` of a run. */
  ghost function At(name: string, links: Links, actions: seq<Action>, k: nat): State
    requires k <= |actions|
  {
    After(name, links, actions[..k])
  }

  lemma AtStep(name: string, links: Links, actions: seq<Action>, k: nat)
    requires k < |actions|
    ensures At(name, links, actions, k + 1) == Step(name, At(name, links, actions, k), actions[k])
  {
    assert actions[..k + 1][..k] == actions[..k];
  }

  predicate Running(s: State) { !s.closed && !s.phase.NotFound? && !s.phase.Restart? && !s.phase.Cancelled? }

  /** A watcher that is running, on an open subscription, was so all along. */
  lemma {:induction false} RunningBefore(name: string, links: Links, actions: seq<Action>, k: nat, n: nat)
    requires k <= n <= |actions| && Running(At(name, links, actions, n))
    ensures Running(At(name, links, actions, k))
    decreases n
  {
    if k < n {
      AtStep(name, links, actions, n - 1);
      RunningBefore(name, links, actions, k, n - 1);
    }
  }

  /** A loss that begins while the watcher listens is noticed. */
  lemma LossWhileListening(name: string, links: Links, actions: seq<Action>, k: nat)
    requires NamesUnique(links) && k < |actions|
    requires var s := At(name, links, actions, k); Listening(s.phase) && !s.closed && !Lost(name, s)
    requires Lost(name, At(name, links, actions, k + 1))
    ensures EverNoticed(name, links, actions)
  {
    var s := At(name, links, actions, k);
    AtStep(name, links, actions, k);
    AfterSound(name, links, actions[..k]);
    LossIsPublished(s.links, actions[k].change, name, s.phase.expected);
    assert Noticed(name, links, actions, k);
  }

  /** What a drained, open watcher still waiting can have missed of what a poller would
      report: only losses that began before it subscribed and had healed by its re-check. */
  lemma MissedLossesAreEarly(name: string, links: Links, actions: seq<Action>, k: nat)
    requires NamesUnique(links) && k <= |actions|
    requires var s := After(name, links, actions); s.phase.Waiting? && s.queue == [] && !s.closed
    requires Lost(name, At(name, links, actions, k))
    ensures var p := At(name, links, actions, k).phase; p.Read? || p.Subscribed?
    ensures k > 0 && !Lost(name, At(name, links, actions, k - 1)) ==> At(name, links, actions, k - 1).phase.Read?
  {
    assert actions[..|actions|] == actions;
    NoticedInvariant(name, links, actions);
    RunningBefore(name, links, actions, k, |actions|);
    if At(name, links, actions, k).phase.Waiting? {
      NothingMissedSinceRecheck(name, links, actions, k);
    }
    if k > 0 && !Lost(name, At(name, links, actions, k - 1)) {
      RunningBefore(name, links, actions, k - 1, |actions|);
      AtStep(name, links, actions, k - 1);
      if At(name, links, actions, k - 1).phase.Begin? { FirstReadFinds(name, links, actions, k - 1); }
      if Listening(At(name, links, actions, k - 1).phase) {
        LossWhileListening(name, links, actions, k - 1);
      }
    }
  }

  lemma FirstReadFinds(name: string, links: Links, actions: seq<Action>, k: nat)
    requires NamesUnique(links) && k < |actions| && At(name, links, actions, k).phase.Begin?
    ensures !Lost(name, At(name, links, actions, k + 1))
  {
    var s := At(name, links, actions, k);
    AtStep(name, links, actions, k);
    AfterSound(name, links, actions[..k]);
    if IndexOf(s.links, name).Some? { IndexOfHas(s.links, name, IndexOf(s.links, name).value); }
  }

  lemma AfterSnoc(name: string, links: Links, actions: seq<Action>, a: Action)
    ensures After(name, links, actions + [a]) == Step(name, After(name, links, actions), a)
  {
    assert (actions + [a])[..|actions|] == actions;
  }

  /** Such a loss need not be missed: an event of the lost interface while the watcher
      listens makes it restart although all has healed by the re-check. */
  lemma TouchedWhileLostIsNoticed()
    ensures var links := map[7 := "wt0"];
            var lost := [] + [FirstRead] + [Kernel(Rename(7, "tmp"))] + [Subscribe(true)];
            var s := After("wt0", links, lost + [Kernel(Touch(7))] + [Kernel(Rename(7, "wt0"))] + [Recheck]);
            && s.phase == Waiting(7) && Has(s.links, "wt0", 7)
            && Step("wt0", s, Receive).phase == Restart(7, Event(Renamed))
  {
    LostWhenSubscribing();
    HealedAfterTouch([] + [FirstRead] + [Kernel(Rename(7, "tmp"))] + [Subscribe(true)]);
  }

  lemma LostWhenSubscribing()
    ensures After("wt0", map[7 := "wt0"], [] + [FirstRead] + [Kernel(Rename(7, "tmp"))] + [Subscribe(true)])
         == State(map[7 := "tmp"], Subscribed(7), [], false)
  {
    var links := map[7 := "wt0"];
    IndexOfHas(links, "wt0", 7);
    AfterSnoc("wt0", links, [], FirstRead);
    AfterSnoc("wt0", links, [] + [FirstRead], Kernel(Rename(7, "tmp")));
    AfterSnoc("wt0", links, [] + [FirstRead] + [Kernel(Rename(7, "tmp"))], Subscribe(true));
  }

  lemma HealedAfterTouch(lost: seq<Action>)
    requires After("wt0", map[7 := "wt0"], lost) == State(map[7 := "tmp"], Subscribed(7), [], false)
    ensures After("wt0", map[7 := "wt0"], lost + [Kernel(Touch(7))] + [Kernel(Rename(7, "wt0"))] + [Recheck])
         == State(map[7 := "wt0"], Waiting(7), [NewLink(7, "tmp"), NewLink(7, "wt0")], false)
  {
    var links := map[7 := "wt0"];
    IndexOfHas(links, "wt0", 7);
    AfterSnoc("wt0", links, lost, Kernel(Touch(7)));
    AfterSnoc("wt0", links, lost + [Kernel(Touch(7))], Kernel(Rename(7, "wt0")));
    AfterSnoc("wt0", links, lost + [Kernel(Touch(7))] + [Kernel(Rename(7, "wt0"))], Recheck);
  }

  // --------------------------------------------------------------- the two loops

  /** What the Linux select yields: a cancelled context, an update, or a closed channel. */
  datatype Input = Done | Update(ev: LinkEvent) | Closed

  datatype Verdict = StillWaiting | StoppedByContext | RestartEngine(reason: Reason)

  predicate Benign(i: Input, name: string, expected: int) {
    i.Update? && !Triggers(i.ev, name, expected)
  }

  /** The select loop of the Linux watcher decides on the first input that is not benign. */
  method WatchLinux(name: string, expected: int, inputs: seq<Input>) returns (v: Verdict, n: nat)
    ensures n <= |inputs| && forall i :: 0 <= i < n ==> Benign(inputs[i], name, expected)
    ensures n == |inputs| <==> v == StillWaiting
    ensures n < |inputs| ==>
              !Benign(inputs[n], name, expected) &&
              match inputs[n]
              case Done => v == StoppedByContext
              case Closed => v == RestartEngine(ChannelClosed)
              case Update(ev) => v == RestartEngine(Event(InspectLinkEvent(ev, name, expected).value))
  {
    n := 0;
    while n < |inputs|
      invariant 0 <= n <= |inputs|
      invariant forall i :: 0 <= i < n ==> Benign(inputs[i], name, expected)
    {
      match inputs[n] {
        case Done => return StoppedByContext, n;
        case Closed => return RestartEngine(ChannelClosed), n;
        case Update(ev) =>
          var cause := InspectLinkEvent(ev, name, expected);
          if cause.Some? { return RestartEngine(Event(cause.value)), n; }
      }
      n := n + 1;
    }
    v := StillWaiting;
  }

  /** What the poller's select yields: a cancelled context or the index read at a tick. */
  datatype Tick = Stop | Reading(index: Option<int>)

  /** The polling loop restarts at the first reading that is not the expected index. */
  method WatchPolling(expected: int, ticks: seq<Tick>) returns (v: Verdict, n: nat)
    ensures n <= |ticks| && forall i :: 0 <= i < n ==> ticks[i] == Reading(Some(expected))
    ensures n == |ticks| <==> v == StillWaiting
    ensures n < |ticks| ==> ticks[n] != Reading(Some(expected))
    ensures n < |ticks| ==>
              v == if ticks[n].Stop? then StoppedByContext
                   else RestartEngine(Event(if ticks[n].index.None? then Deleted else Recreated))
  {
    n := 0;
    while n < |ticks|
      invariant 0 <= n <= |ticks|
      invariant forall i :: 0 <= i < n ==> ticks[i] == Reading(Some(expected))
    {
      match ticks[n] {
        case Stop => return StoppedByContext, n;
        case Reading(index) =>
          if index.None? { return RestartEngine(Event(Deleted)), n; }
          if index.value != expected { return RestartEngine(Event(Recreated)), n; }
      }
      n := n + 1;
    }
    v := StillWaiting;
  }
}
