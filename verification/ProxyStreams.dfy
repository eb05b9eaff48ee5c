/** The states the server reaches over connections, batches and reconciled snapshots. */
module ProxyStreams {
  import opened R = Router
  import opened ProxyTables
  import opened ProxyLinked
  import opened ProxyRouters
  import opened ProxyOwned

  ghost predicate Good(c: Config, t: Tables) {
    Linked(t) && Owned(c, t) && NoEmpty(t)
  }

  /** What one update must meet, when its turn comes, to leave the tables good. */
  ghost predicate Keeps(c: Config, t: Tables, m: Mapping, env: Env) {
    KeepsOwned(c, t, m, env) && !LeavesEmpty(c, t, m, env)
  }

  lemma GoodExactly(c: Config, t: Tables, m: Mapping, env: Env)
    requires Good(c, t)
    ensures Good(c, Process(c, t, m, env)) <==> Keeps(c, t, m, env)
  {
    ProcessLinked(c, t, m, env);
    OwnedExactly(c, t, m, env);
    EmptyRouterExactly(c, t, m, env);
  }

  /** TCP mappings without a domain, TLS mappings with one, and CREATED only for new ids or
      unmoved services. */
  predicate Disciplined(c: Config, t: Tables, m: Mapping) {
    && PlainTCP(m) && (m.mode == TLS ==> m.domain != "")
    && (m.update == Created ==> Compatible(c, t, m))
  }

  lemma DisciplinedKeeps(c: Config, t: Tables, m: Mapping, env: Env)
    requires Good(c, t) && Disciplined(c, t, m)
    ensures Keeps(c, t, m, env)
  {
    CompatibleKeepsOwned(c, t, m, env);
  }

  ghost predicate KeepsAll(c: Config, t: Tables, run: seq<Update>)
    decreases |run|
  {
    run == [] || (Keeps(c, t, run[0].0, run[0].1) && KeepsAll(c, Process(c, t, run[0].0, run[0].1), run[1..]))
  }

  lemma {:induction false} RunsAreGood(c: Config, t: Tables, run: seq<Update>)
    requires Good(c, t) && KeepsAll(c, t, run)
    ensures Good(c, ProcessAll(c, t, run))
    decreases |run|
  {
    if run != [] {
      GoodExactly(c, t, run[0].0, run[0].1);
      RunsAreGood(c, Process(c, t, run[0].0, run[0].1), run[1..]);
    }
  }

  // -------------------------------------------------------------- reconciliation

  /** Removing a service leaves good tables good, whatever is named. */
  lemma RemoveGood(c: Config, t: Tables, m: Mapping)
    requires Good(c, t)
    ensures Good(c, Remove(c, t, m))
  {
    RemoveRecords(c, t, m);
    RemoveOwned(c, t, m);
    CleanupNoEmpty(c, t.(lastMappings := t.lastMappings - {m.id}), Previous(t, m));
  }

  lemma {:induction false} RemoveAllGood(c: Config, t: Tables, stale: seq<Mapping>)
    requires Good(c, t)
    ensures Good(c, RemoveAll(c, t, stale))
    decreases |stale|
  {
    if stale != [] {
      RemoveGood(c, t, stale[0]);
      RemoveAllGood(c, Remove(c, t, stale[0]), stale[1..]);
    }
  }

  // --------------------------------------------------------------------- streams

  lemma ReceiveGood(c: Config, s: Stream, b: Batch)
    requires Good(c, s.t) && Receivable(c, s, b) && KeepsAll(c, s.t, b.updates)
    ensures Good(c, Receive(c, s, b).t)
  {
    var t := ProcessAll(c, s.t, b.updates);
    RunsAreGood(c, s.t, b.updates);
    if Reconciles(s, b) {
      RemoveAllGood(c, t, Stale(t.lastMappings, b.order, s.seen + Ids(b.updates)));
    }
  }

  ghost predicate KeepsStream(c: Config, s: Stream, batches: seq<Batch>)
    requires Playable(c, s, batches)
    decreases |batches|
  {
    batches == [] ||
    (KeepsAll(c, s.t, batches[0].updates) && KeepsStream(c, Receive(c, s, batches[0]), batches[1..]))
  }

  lemma {:induction false} PlayGood(c: Config, s: Stream, batches: seq<Batch>)
    requires Good(c, s.t) && Playable(c, s, batches) && KeepsStream(c, s, batches)
    ensures Good(c, Play(c, s, batches).t)
    decreases |batches|
  {
    if batches != [] {
      ReceiveGood(c, s, batches[0]);
      PlayGood(c, Receive(c, s, batches[0]), batches[1..]);
    }
  }

  ghost predicate KeepsStreams(c: Config, t: Tables, streams: seq<seq<Batch>>)
    requires Connectable(c, t, streams)
    decreases |streams|
  {
    streams == [] ||
    (KeepsStream(c, Stream(t, false, {}), streams[0]) &&
     KeepsStreams(c, Play(c, Stream(t, false, {}), streams[0]).t, streams[1..]))
  }

  lemma {:induction false} ConnectGood(c: Config, t: Tables, streams: seq<seq<Batch>>)
    requires Good(c, t) && Connectable(c, t, streams) && KeepsStreams(c, t, streams)
    ensures Good(c, Connect(c, t, streams))
    decreases |streams|
  {
    if streams != [] {
      PlayGood(c, Stream(t, false, {}), streams[0]);
      ConnectGood(c, Play(c, Stream(t, false, {}), streams[0]).t, streams[1..]);
    }
  }

  /** Over any number of connections, batches and reconciled snapshots whose updates meet
      the exact condition when their turn comes, every record has an owner, every route and
      fallback belongs to a stored service recorded on its port, and no per-port router is
      empty. */
  lemma EveryRunGood(c: Config, crowdsecConfigured: bool, streams: seq<seq<Batch>>)
    requires Connectable(c, Initial(crowdsecConfigured), streams)
    requires KeepsStreams(c, Initial(crowdsecConfigured), streams)
    ensures Good(c, Connect(c, Initial(crowdsecConfigured), streams))
  {
    ConnectGood(c, Initial(crowdsecConfigured), streams);
  }

  // ------------------------------------------------ a well-behaved management server

  ghost predicate DisciplinedRun(c: Config, t: Tables, run: seq<Update>)
    decreases |run|
  {
    run == [] || (Disciplined(c, t, run[0].0) && DisciplinedRun(c, Process(c, t, run[0].0, run[0].1), run[1..]))
  }

  ghost predicate DisciplinedStream(c: Config, s: Stream, batches: seq<Batch>)
    requires Playable(c, s, batches)
    decreases |batches|
  {
    batches == [] ||
    (DisciplinedRun(c, s.t, batches[0].updates) && DisciplinedStream(c, Receive(c, s, batches[0]), batches[1..]))
  }

  ghost predicate DisciplinedStreams(c: Config, t: Tables, streams: seq<seq<Batch>>)
    requires Connectable(c, t, streams)
    decreases |streams|
  {
    streams == [] ||
    (DisciplinedStream(c, Stream(t, false, {}), streams[0]) &&
     DisciplinedStreams(c, Play(c, Stream(t, false, {}), streams[0]).t, streams[1..]))
  }

  lemma {:induction false} DisciplinedRunKeeps(c: Config, t: Tables, run: seq<Update>)
    requires Good(c, t) && DisciplinedRun(c, t, run)
    ensures KeepsAll(c, t, run)
    decreases |run|
  {
    if run != [] {
      DisciplinedKeeps(c, t, run[0].0, run[0].1);
      GoodExactly(c, t, run[0].0, run[0].1);
      DisciplinedRunKeeps(c, Process(c, t, run[0].0, run[0].1), run[1..]);
    }
  }

  lemma {:induction false} DisciplinedStreamKeeps(c: Config, s: Stream, batches: seq<Batch>)
    requires Good(c, s.t) && Playable(c, s, batches) && DisciplinedStream(c, s, batches)
    ensures KeepsStream(c, s, batches)
    decreases |batches|
  {
    if batches != [] {
      DisciplinedRunKeeps(c, s.t, batches[0].updates);
      ReceiveGood(c, s, batches[0]);
      DisciplinedStreamKeeps(c, Receive(c, s, batches[0]), batches[1..]);
    }
  }

  lemma {:induction false} DisciplinedStreamsKeep(c: Config, t: Tables, streams: seq<seq<Batch>>)
    requires Good(c, t) && Connectable(c, t, streams) && DisciplinedStreams(c, t, streams)
    ensures KeepsStreams(c, t, streams)
    decreases |streams|
  {
    if streams != [] {
      DisciplinedStreamKeeps(c, Stream(t, false, {}), streams[0]);
      PlayGood(c, Stream(t, false, {}), streams[0]);
      DisciplinedStreamsKeep(c, Play(c, Stream(t, false, {}), streams[0]).t, streams[1..]);
    }
  }

  /** Connections that send TCP mappings without a domain, TLS mappings with one, and CREATED
      only for new ids or unmoved services reach good tables only, whatever fails and however
      often they reconnect and reconcile. */
  lemma DisciplinedConnectionsAreGood(c: Config, crowdsecConfigured: bool, streams: seq<seq<Batch>>)
    requires Connectable(c, Initial(crowdsecConfigured), streams)
    requires DisciplinedStreams(c, Initial(crowdsecConfigured), streams)
    ensures Good(c, Connect(c, Initial(crowdsecConfigured), streams))
  {
    DisciplinedStreamsKeep(c, Initial(crowdsecConfigured), streams);
    EveryRunGood(c, crowdsecConfigured, streams);
  }

  // --------------------------------------------------------------- empty routers

  predicate DomainfulTLS(updates: seq<Update>) { forall u :: u in updates && u.0.mode == TLS ==> u.0.domain != "" }

  lemma {:induction false} RemoveAllNoEmpty(c: Config, t: Tables, stale: seq<Mapping>)
    requires NoEmpty(t)
    ensures NoEmpty(RemoveAll(c, t, stale))
    decreases |stale|
  {
    if stale != [] {
      CleanupNoEmpty(c, t.(lastMappings := t.lastMappings - {stale[0].id}), Previous(t, stale[0]));
      RemoveAllNoEmpty(c, Remove(c, t, stale[0]), stale[1..]);
    }
  }

  lemma {:induction false} PlayNoEmpty(c: Config, s: Stream, batches: seq<Batch>)
    requires NoEmpty(s.t) && Playable(c, s, batches) && forall b :: b in batches ==> DomainfulTLS(b.updates)
    ensures NoEmpty(Play(c, s, batches).t)
    decreases |batches|
  {
    if batches != [] {
      var b := batches[0];
      assert b in batches && forall x :: x in batches[1..] ==> x in batches;
      NoEmptyRouterInRuns(c, s.t, b.updates);
      if Reconciles(s, b) {
        var t := ProcessAll(c, s.t, b.updates);
        RemoveAllNoEmpty(c, t, Stale(t.lastMappings, b.order, s.seen + Ids(b.updates)));
      }
      PlayNoEmpty(c, Receive(c, s, b), batches[1..]);
    }
  }

  /** When TLS mappings carry a domain, no sequence of connections, whatever else they send
      and whatever fails, reaches an empty per-port router. */
  lemma {:induction false} NoEmptyOverConnections(c: Config, t: Tables, streams: seq<seq<Batch>>)
    requires NoEmpty(t) && Connectable(c, t, streams)
    requires forall batches, b :: batches in streams && b in batches ==> DomainfulTLS(b.updates)
    ensures NoEmpty(Connect(c, t, streams))
    decreases |streams|
  {
    if streams != [] {
      assert streams[0] in streams && forall x :: x in streams[1..] ==> x in streams;
      PlayNoEmpty(c, Stream(t, false, {}), streams[0]);
      NoEmptyOverConnections(c, Play(c, Stream(t, false, {}), streams[0]).t, streams[1..]);
    }
  }

  // ------------------------------------------------------------------- snapshots

  /** Every route and fallback, on any router, is one of the named services. */
  ghost predicate ServesOnly(t: Tables, named: set<ServiceId>) {
    && EntriesOf(t.main, named)
    && forall p :: p in t.portRouters ==> EntriesOf(t.portRouters[p], named)
  }

  ghost predicate EntriesOf(r: Router, named: set<ServiceId>) {
    && (forall h, x :: h in r.routes && x in r.routes[h] ==> x.service in named)
    && (r.fallback.Some? ==> r.fallback.value.service in named)
  }

  /** After a completed snapshot, whatever earlier connections left, nothing is routed but
      to services this connection named. */
  lemma SnapshotServesOnlyNamed(c: Config, crowdsecConfigured: bool, earlier: seq<seq<Batch>>, batches: seq<Batch>,
                                last: Batch)
    requires Connectable(c, Initial(crowdsecConfigured), earlier)
    requires KeepsStreams(c, Initial(crowdsecConfigured), earlier)
    requires var s := Stream(Connect(c, Initial(crowdsecConfigured), earlier), false, {});
             Playable(c, s, batches + [last]) && KeepsStream(c, s, batches + [last])
    requires last.syncComplete && forall b :: b in batches ==> !b.syncComplete
    ensures var s := Stream(Connect(c, Initial(crowdsecConfigured), earlier), false, {});
            var t := Play(c, s, batches + [last]).t;
            Good(c, t) && ServesOnly(t, Ids(AllUpdates(batches + [last])))
  {
    var s := Stream(Connect(c, Initial(crowdsecConfigured), earlier), false, {});
    EveryRunGood(c, crowdsecConfigured, earlier);
    PlayGood(c, s, batches + [last]);
    SnapshotRestricts(c, crowdsecConfigured, earlier, batches, last);
    OwnedServes(c, Play(c, s, batches + [last]).t);
  }

  lemma OwnedServes(c: Config, t: Tables)
    requires Owned(c, t)
    ensures ServesOnly(t, t.lastMappings.Keys)
  {
    forall p | p in t.portRouters ensures EntriesOf(t.portRouters[p], t.lastMappings.Keys) {
      assert PortOwned(t.lastMappings, t.svcPorts, p, t.portRouters[p]);
    }
  }
}
