/** The client's tunnel manager and the web UI's connect and disconnect (TunnelManager,
    AppState), for calls that run one after another. */
module TunnelManager {
  import opened Common
  import opened TunnelConfig

  /** A running tunnel: the entry it was started from and its spawned task. */
  datatype Handle = Handle(entry: TunnelEntry, task: nat)

  /** tasks: spawned tasks that have not been cancelled and aborted. */
  datatype Manager = Manager(store: Store, running: map<string, Handle>, tasks: set<nat>, spawned: nat)

  datatype ManagerError = Config(error: ConfigError) | AlreadyRunning | NotRunning | NotInConfig

  // ---- The operations on values ----

  function Starting(m: Manager, entry: TunnelEntry): Manager {
    if entry.id in m.running then m
    else m.(running := m.running[entry.id := Handle(entry, m.spawned)], tasks := m.tasks + {m.spawned}, spawned := m.spawned + 1)
  }

  function Stopping(m: Manager, id: string): Manager {
    if id !in m.running then m
    else m.(running := m.running - {id}, tasks := m.tasks - {m.running[id].task})
  }

  /** After a config mutation that returned this: start the tunnel if it succeeded and is enabled. */
  function StartingIfEnabled(m: Manager, r: Result<TunnelEntry, ConfigError>): (Manager, Result<TunnelEntry, ManagerError>) {
    match r
    case Failure(e) => (m, Failure(Config(e)))
    case Success(e) =>
      if !e.enabled then (m, Success(e))
      else (Starting(m, e), if e.id in m.running then Failure(AlreadyRunning) else Success(e))
  }

  function AddingTunnel(m: Manager, entry: TunnelEntry, generated: string, save: SaveOutcome): (Manager, Result<TunnelEntry, ManagerError>) {
    var (store, r) := Adding(m.store, entry, generated, save);
    StartingIfEnabled(m.(store := store), r)
  }

  function UpdatingTunnel(m: Manager, id: string, clientId: string, localAddr: string, enabled: bool, save: SaveOutcome)
    : (Manager, Result<TunnelEntry, ManagerError>)
  {
    var stopped := Stopping(m, id);
    var (store, r) := Updating(m.store, id, clientId, localAddr, enabled, save);
    StartingIfEnabled(stopped.(store := store), r)
  }

  function RemovingTunnel(m: Manager, id: string, save: SaveOutcome): (Manager, Result<TunnelEntry, ManagerError>) {
    var (store, r) := Removing(m.store, id, save);
    (Stopping(m, id).(store := store), match r case Success(e) => Success(e) case Failure(e) => Failure(Config(e)))
  }

  function StartingById(m: Manager, id: string): (Manager, Result<(), ManagerError>) {
    match Position(m.store.tunnels, id)
    case None => (m, Failure(NotInConfig))
    case Some(p) =>
      (Starting(m, m.store.tunnels[p]), if m.store.tunnels[p].id in m.running then Failure(AlreadyRunning) else Success(()))
  }

  function StartingEach(m: Manager, entries: seq<TunnelEntry>): Manager {
    if entries == [] then m
    else Starting(StartingEach(m, entries[..|entries| - 1]), entries[|entries| - 1])
  }

  function EnabledOf(tunnels: seq<TunnelEntry>): seq<TunnelEntry> {
    if tunnels == [] then []
    else EnabledOf(tunnels[..|tunnels| - 1]) + if tunnels[|tunnels| - 1].enabled then [tunnels[|tunnels| - 1]] else []
  }

  function StoppingAll(m: Manager): Manager {
    m.(running := map[], tasks := m.tasks - set id | id in m.running :: m.running[id].task)
  }

  function NewManager(tunnels: seq<TunnelEntry>, file: File): Manager {
    Manager(Store(tunnels, file), map[], {}, 0)
  }

  // ---- The manager as an object ----

  class TunnelManager {
    const config: TunnelsConfig
    const disk: Disk
    var running: map<string, Handle>
    var tasks: set<nat>
    var spawned: nat

    constructor (tunnels: seq<TunnelEntry>, disk: Disk)
      ensures fresh(config) && this.disk == disk
      ensures View() == NewManager(tunnels, disk.tunnels)
    {
      config := new TunnelsConfig(tunnels);
      this.disk := disk;
      running, tasks, spawned := map[], {}, 0;
    }

    function View(): Manager
      reads this, config, disk
    {
      Manager(Store(config.tunnels, disk.tunnels), running, tasks, spawned)
    }

    method StartTunnelInternal(entry: TunnelEntry) returns (ok: bool)
      modifies this
      ensures View() == Starting(old(View()), entry) && ok == (entry.id !in old(running))
    {
      if entry.id in running {
        return false;
      }
      var task := spawned;
      spawned, tasks := spawned + 1, tasks + {task};
      running := running[entry.id := Handle(entry, task)];
      return true;
    }

    method StopTunnel(id: string) returns (ok: bool)
      modifies this
      ensures View() == Stopping(old(View()), id) && ok == (id in old(running))
    {
      if id !in running {
        return false;
      }
      var handle := running[id];
      running := running - {id};
      tasks := tasks - {handle.task};
      return true;
    }

    method AddTunnel(entry: TunnelEntry, generated: string, save: SaveOutcome) returns (r: Result<TunnelEntry, ManagerError>)
      modifies this, config, disk`tunnels
      ensures (View(), r) == AddingTunnel(old(View()), entry, generated, save)
    {
      var added := config.AddTunnel(entry, generated, disk, save);
      if added.Failure? {
        return Failure(Config(added.error));
      }
      if added.value.enabled {
        var ok := StartTunnelInternal(added.value);
        if !ok {
          return Failure(AlreadyRunning);
        }
      }
      return Success(added.value);
    }

    method UpdateTunnel(id: string, clientId: string, localAddr: string, enabled: bool, save: SaveOutcome)
      returns (r: Result<TunnelEntry, ManagerError>)
      modifies this, config, disk`tunnels
      ensures (View(), r) == UpdatingTunnel(old(View()), id, clientId, localAddr, enabled, save)
    {
      var _ := StopTunnel(id);
      var updated := config.UpdateTunnel(id, clientId, localAddr, enabled, disk, save);
      if updated.Failure? {
        return Failure(Config(updated.error));
      }
      if updated.value.enabled {
        var ok := StartTunnelInternal(updated.value);
        if !ok {
          return Failure(AlreadyRunning);
        }
      }
      return Success(updated.value);
    }

    method RemoveTunnel(id: string, save: SaveOutcome) returns (r: Result<TunnelEntry, ManagerError>)
      modifies this, config, disk`tunnels
      ensures (View(), r) == RemovingTunnel(old(View()), id, save)
    {
      var _ := StopTunnel(id);
      var removed := config.RemoveTunnel(id, disk, save);
      return match removed case Success(e) => Success(e) case Failure(e) => Failure(Config(e));
    }

    method StartTunnel(id: string) returns (r: Result<(), ManagerError>)
      modifies this
      ensures (View(), r) == StartingById(old(View()), id)
    {
      var entry := config.GetTunnel(id);
      if entry == None {
        return Failure(NotInConfig);
      }
      var ok := StartTunnelInternal(entry.value);
      return if ok then Success(()) else Failure(AlreadyRunning);
    }

    method RestartTunnel(id: string) returns (r: Result<(), ManagerError>)
      modifies this
      ensures (View(), r) == StartingById(Stopping(old(View()), id), id)
    {
      var _ := StopTunnel(id);
      r := StartTunnel(id);
    }

    method EnabledEntries() returns (entries: seq<TunnelEntry>)
      ensures entries == EnabledOf(config.tunnels)
    {
      entries := [];
      var i := 0;
      while i < |config.tunnels|
        invariant i <= |config.tunnels|
        invariant entries == EnabledOf(config.tunnels[..i])
      {
        assert config.tunnels[..i + 1][..i] == config.tunnels[..i];
        if config.tunnels[i].enabled {
          entries := entries + [config.tunnels[i]];
        }
        i := i + 1;
      }
      assert config.tunnels[..i] == config.tunnels;
    }

    method StartAll()
      modifies this
      ensures View() == StartingEach(old(View()), EnabledOf(old(config.tunnels)))
    {
      var entries := EnabledEntries();
      var i := 0;
      while i < |entries|
        invariant i <= |entries|
        invariant View() == StartingEach(old(View()), entries[..i])
      {
        assert entries[..i + 1][..i] == entries[..i];
        var _ := StartTunnelInternal(entries[i]);
        i := i + 1;
      }
      assert entries[..i] == entries;
    }

    method StopAll()
      modifies this
      ensures View() == StoppingAll(old(View()))
    {
      var ids := running.Keys;
      while ids != {}
        invariant running.Keys == ids
        invariant forall id :: id in ids ==> id in old(running) && running[id] == old(running)[id]
        invariant tasks == old(tasks) - set id | id in old(running) && id !in ids :: old(running)[id].task
        invariant spawned == old(spawned)
        decreases |ids|
      {
        var id :| id in ids;
        var _ := StopTunnel(id);
        ids := ids - {id};
      }
    }
  }

  // ---- Coherence of running tunnels and config ----

  ghost predicate RunningMatchesConfig(m: Manager) {
    forall id :: id in m.running ==>
      exists i :: 0 <= i < |m.store.tunnels| && m.store.tunnels[i].id == id && m.running[id].entry == m.store.tunnels[i]
  }

  /** Live tasks are exactly the tasks of running tunnels, one each. */
  ghost predicate TasksMatchRunning(m: Manager) {
    && (forall id :: id in m.running ==> m.running[id].task in m.tasks && m.running[id].task < m.spawned)
    && (forall t :: t in m.tasks ==> exists id :: id in m.running && m.running[id].task == t)
    && (forall a, b :: a in m.running && b in m.running && m.running[a].task == m.running[b].task ==> a == b)
  }

  ghost predicate Coherent(m: Manager) {
    DistinctIds(m.store.tunnels) && DistinctClientIds(m.store.tunnels) && RunningMatchesConfig(m) && TasksMatchRunning(m)
  }

  /** No two running tunnels claim one subdomain. */
  lemma NoSharedSubdomain(m: Manager, a: string, b: string)
    requires Coherent(m) && a in m.running && b in m.running && a != b
    ensures m.running[a].entry.id == a && m.running[b].entry.id == b
    ensures m.running[a].entry.clientId != m.running[b].entry.clientId
  {
    var i :| 0 <= i < |m.store.tunnels| && m.store.tunnels[i].id == a && m.running[a].entry == m.store.tunnels[i];
    var j :| 0 <= j < |m.store.tunnels| && m.store.tunnels[j].id == b && m.running[b].entry == m.store.tunnels[j];
    assert m.store.tunnels[if i < j then i else j].clientId != m.store.tunnels[if i < j then j else i].clientId;
  }

  lemma StartingKeepsTasks(m: Manager, e: TunnelEntry)
    requires TasksMatchRunning(m)
    ensures TasksMatchRunning(Starting(m, e))
  {
    var m' := Starting(m, e);
    forall t | t in m'.tasks ensures exists id :: id in m'.running && m'.running[id].task == t {
      if t in m.tasks {
        var id :| id in m.running && m.running[id].task == t;
        assert id in m'.running && m'.running[id].task == t;
      } else {
        assert m'.running[e.id].task == t;
      }
    }
  }

  lemma StartingKeepsCoherent(m: Manager, i: nat)
    requires Coherent(m) && i < |m.store.tunnels|
    ensures Coherent(Starting(m, m.store.tunnels[i]))
  {
    hide TasksMatchRunning, DistinctIds, DistinctClientIds;
    StartingKeepsTasks(m, m.store.tunnels[i]);
  }

  lemma StoppingKeepsTasks(m: Manager, id: string)
    requires TasksMatchRunning(m)
    ensures TasksMatchRunning(Stopping(m, id))
  {
    var m' := Stopping(m, id);
    forall t | t in m'.tasks ensures exists k :: k in m'.running && m'.running[k].task == t {
      var k :| k in m.running && m.running[k].task == t;
      assert k in m'.running && m'.running[k].task == t;
    }
  }

  lemma StoppingKeepsCoherent(m: Manager, id: string)
    requires Coherent(m)
    ensures Coherent(Stopping(m, id)) && id !in Stopping(m, id).running
  {
    hide TasksMatchRunning, DistinctIds, DistinctClientIds;
    StoppingKeepsTasks(m, id);
  }

  /** Changing the list keeps coherence if ids stay distinct and what runs is still listed. */
  lemma NewListKeepsCoherent(m: Manager, store: Store)
    requires Coherent(m) && DistinctIds(store.tunnels) && DistinctClientIds(store.tunnels)
    requires forall i :: 0 <= i < |m.store.tunnels| && m.store.tunnels[i].id in m.running ==> m.store.tunnels[i] in store.tunnels
    ensures Coherent(m.(store := store))
  {
    forall id | id in m.running
      ensures exists i :: 0 <= i < |store.tunnels| && store.tunnels[i].id == id && m.running[id].entry == store.tunnels[i]
    {
      var i :| 0 <= i < |m.store.tunnels| && m.store.tunnels[i].id == id && m.running[id].entry == m.store.tunnels[i];
      assert m.store.tunnels[i] in store.tunnels;
    }
  }

  lemma {:induction false} EnabledMember(tunnels: seq<TunnelEntry>, e: TunnelEntry)
    ensures e in EnabledOf(tunnels) <==> e in tunnels && e.enabled
  {
    if tunnels != [] {
      var n := |tunnels| - 1;
      EnabledMember(tunnels[..n], e);
      assert e in tunnels <==> e in tunnels[..n] || e == tunnels[n];
    }
  }

  lemma {:induction false} StartingEachKeepsCoherent(m: Manager, entries: seq<TunnelEntry>)
    requires Coherent(m) && forall e :: e in entries ==> e in m.store.tunnels
    ensures Coherent(StartingEach(m, entries)) && StartingEach(m, entries).store == m.store
  {
    if entries != [] {
      hide Coherent;
      var n := |entries| - 1;
      assert forall e :: e in entries[..n] ==> e in entries;
      StartingEachKeepsCoherent(m, entries[..n]);
      assert entries[n] in m.store.tunnels;
      var i :| 0 <= i < |m.store.tunnels| && m.store.tunnels[i] == entries[n];
      StartingKeepsCoherent(StartingEach(m, entries[..n]), i);
    }
  }

  // ---- Every call keeps it ----

  datatype Call =
    | Mutate(mutation: Mutation, save: SaveOutcome)
    | Start(id: string)
    | Stop(id: string)
    | Restart(id: string)
    | StartAll
    | StopAll

  function Calling(m: Manager, call: Call): Manager {
    match call
    case Mutate(Add(entry, generated), save) => AddingTunnel(m, entry, generated, save).0
    case Mutate(Update(id, clientId, localAddr, enabled), save) => UpdatingTunnel(m, id, clientId, localAddr, enabled, save).0
    case Mutate(Remove(id), save) => RemovingTunnel(m, id, save).0
    case Start(id) => StartingById(m, id).0
    case Stop(id) => Stopping(m, id)
    case Restart(id) => StartingById(Stopping(m, id), id).0
    case StartAll => StartingEach(m, EnabledOf(m.store.tunnels))
    case StopAll => StoppingAll(m)
  }

  /** The call stores an entry under an id that is already in use. */
  predicate CallReusesId(m: Manager, call: Call) {
    call.Mutate? && call.mutation.Add? && ReusesId(m.store.tunnels, call.mutation.entry, call.mutation.generated)
  }

  lemma StartIfEnabledKeepsCoherent(m: Manager, r: Result<TunnelEntry, ConfigError>)
    requires Coherent(m) && (r.Success? ==> r.value in m.store.tunnels)
    ensures Coherent(StartingIfEnabled(m, r).0)
  {
    hide Coherent;
    if r.Success? && r.value.enabled {
      var i :| 0 <= i < |m.store.tunnels| && m.store.tunnels[i] == r.value;
      StartingKeepsCoherent(m, i);
    }
  }

  lemma AddKeepsCoherent(m: Manager, entry: TunnelEntry, generated: string, save: SaveOutcome)
    requires Coherent(m)
    requires !ReusesId(m.store.tunnels, entry, generated)
    ensures Coherent(AddingTunnel(m, entry, generated, save).0)
  {
    var (store, r) := Adding(m.store, entry, generated, save);
    AddingKeepsDistinct(m.store, entry, generated, save);
    assert forall i :: 0 <= i < |m.store.tunnels| ==> m.store.tunnels[i] == store.tunnels[i];
    hide RunningMatchesConfig, TasksMatchRunning, DistinctIds, DistinctClientIds;
    NewListKeepsCoherent(m, store);
    StartIfEnabledKeepsCoherent(m.(store := store), r);
  }

  lemma UpdateKeepsCoherent(m: Manager, id: string, clientId: string, localAddr: string, enabled: bool, save: SaveOutcome)
    requires Coherent(m)
    ensures Coherent(UpdatingTunnel(m, id, clientId, localAddr, enabled, save).0)
  {
    hide RunningMatchesConfig, TasksMatchRunning, DistinctIds, DistinctClientIds;
    var stopped := Stopping(m, id);
    StoppingKeepsCoherent(m, id);
    var (store, r) := Updating(m.store, id, clientId, localAddr, enabled, save);
    UpdatingKeepsDistinct(m.store, id, clientId, localAddr, enabled, save);
    forall i | 0 <= i < |m.store.tunnels| && m.store.tunnels[i].id in stopped.running ensures m.store.tunnels[i] in store.tunnels {
      assert store.tunnels[i] == m.store.tunnels[i];
    }
    assert r.Success? ==> store.tunnels[Position(m.store.tunnels, id).value] == r.value;
    NewListKeepsCoherent(stopped, store);
    StartIfEnabledKeepsCoherent(stopped.(store := store), r);
  }

  lemma RemoveKeepsCoherent(m: Manager, id: string, save: SaveOutcome)
    requires Coherent(m)
    ensures Coherent(RemovingTunnel(m, id, save).0)
  {
    hide RunningMatchesConfig, TasksMatchRunning, DistinctIds, DistinctClientIds;
    var stopped := Stopping(m, id);
    StoppingKeepsCoherent(m, id);
    var store := Removing(m.store, id, save).0;
    RemovingKeepsDistinct(m.store, id, save);
    forall i | 0 <= i < |m.store.tunnels| && m.store.tunnels[i].id in stopped.running ensures m.store.tunnels[i] in store.tunnels {
      var p := Position(m.store.tunnels, id);
      if p.Some? {
        assert i < p.value ==> store.tunnels[i] == m.store.tunnels[i];
        assert i > p.value ==> store.tunnels[i - 1] == m.store.tunnels[i];
      }
    }
    NewListKeepsCoherent(stopped, store);
  }

  /** One call, successful or not, keeps a coherent manager coherent exactly when it does not
      store an entry under an id that is already in use. */
  lemma CallKeepsCoherent(m: Manager, call: Call)
    requires Coherent(m)
    ensures Coherent(Calling(m, call)) <==> !CallReusesId(m, call)
  {
    if CallReusesId(m, call) {
      var add := call.mutation;
      AddingKeepsDistinct(m.store, add.entry, add.generated, call.save);
    } else {
      KeptUnlessReused(m, call);
    }
  }

  lemma KeptUnlessReused(m: Manager, call: Call)
    requires Coherent(m) && !CallReusesId(m, call)
    ensures Coherent(Calling(m, call))
  {
    hide RunningMatchesConfig, TasksMatchRunning, DistinctIds, DistinctClientIds, Coherent;
    match call {
      case Mutate(Add(entry, generated), save) => AddKeepsCoherent(m, entry, generated, save);
      case Mutate(Update(id, clientId, localAddr, enabled), save) =>
        UpdateKeepsCoherent(m, id, clientId, localAddr, enabled, save);
      case Mutate(Remove(id), save) => RemoveKeepsCoherent(m, id, save);
      case Stop(id) => StoppingKeepsCoherent(m, id);
      case Start(id) => StartByIdKeepsCoherent(m, id);
      case Restart(id) =>
        StoppingKeepsCoherent(m, id);
        StartByIdKeepsCoherent(Stopping(m, id), id);
      case StartAll =>
        forall e | e in EnabledOf(m.store.tunnels) ensures e in m.store.tunnels { EnabledMember(m.store.tunnels, e); }
        StartingEachKeepsCoherent(m, EnabledOf(m.store.tunnels));
      case StopAll => StoppingAllStops(m);
    }
  }

  lemma StartByIdKeepsCoherent(m: Manager, id: string)
    requires Coherent(m)
    ensures Coherent(StartingById(m, id).0)
  {
    hide Coherent;
    var p := Position(m.store.tunnels, id);
    if p.Some? {
      StartingKeepsCoherent(m, p.value);
    }
  }

  /** stop_all leaves no tunnel and no task running. */
  lemma StoppingAllStops(m: Manager)
    requires Coherent(m)
    ensures Coherent(StoppingAll(m)) && StoppingAll(m).running == map[] && StoppingAll(m).tasks == {}
  {
  }

  /** The manager after a run of calls. */
  function CallingEach(m: Manager, calls: seq<Call>): Manager {
    if calls == [] then m else Calling(CallingEach(m, calls[..|calls| - 1]), calls[|calls| - 1])
  }

  /** Whatever the calls and however their saves go: while ids are not reused, config ids and
      client ids stay distinct, what runs is what the config says, and one task runs for each. */
  lemma {:induction false} RunsKeepCoherent(m: Manager, calls: seq<Call>)
    requires Coherent(m)
    requires forall i :: 0 <= i < |calls| ==> !CallReusesId(CallingEach(m, calls[..i]), calls[i])
    ensures Coherent(CallingEach(m, calls))
  {
    hide Coherent, CallReusesId;
    if calls != [] {
      var n := |calls| - 1;
      forall i | 0 <= i < n ensures !CallReusesId(CallingEach(m, calls[..n][..i]), calls[..n][i]) {
        assert calls[..n][..i] == calls[..i];
      }
      RunsKeepCoherent(m, calls[..n]);
      KeptUnlessReused(CallingEach(m, calls[..n]), calls[n]);
    }
  }

  /** So a run stays coherent throughout exactly when it never reuses an id. */
  lemma RunsCoherentExactlyWhen(m: Manager, calls: seq<Call>)
    requires Coherent(m)
    ensures (forall k :: 0 <= k <= |calls| ==> Coherent(CallingEach(m, calls[..k]))) <==>
            (forall i :: 0 <= i < |calls| ==> !CallReusesId(CallingEach(m, calls[..i]), calls[i]))
  {
    hide Coherent, CallReusesId, Calling;
    if forall k :: 0 <= k <= |calls| ==> Coherent(CallingEach(m, calls[..k])) {
      forall i | 0 <= i < |calls| ensures !CallReusesId(CallingEach(m, calls[..i]), calls[i]) {
        assert Coherent(CallingEach(m, calls[..i])) && Coherent(CallingEach(m, calls[..i + 1]));
        assert calls[..i + 1][..i] == calls[..i];
        CallKeepsCoherent(CallingEach(m, calls[..i]), calls[i]);
      }
    }
    if forall i :: 0 <= i < |calls| ==> !CallReusesId(CallingEach(m, calls[..i]), calls[i]) {
      forall k | 0 <= k <= |calls| ensures Coherent(CallingEach(m, calls[..k])) {
        assert forall i :: 0 <= i < k ==> calls[..k][..i] == calls[..i];
        RunsKeepCoherent(m, calls[..k]);
      }
    }
  }

  // ---- What start_all runs ----

  /** Started from nothing, exactly the ids of the entries run, each with the first entry of that id. */
  lemma {:induction false} StartsFirstOfEachId(m: Manager, entries: seq<TunnelEntry>, id: string)
    requires m.running == map[]
    ensures id in StartingEach(m, entries).running <==> exists i :: 0 <= i < |entries| && entries[i].id == id
    ensures id in StartingEach(m, entries).running ==>
              exists i :: 0 <= i < |entries| && entries[i] == StartingEach(m, entries).running[id].entry
                && entries[i].id == id && forall j :: 0 <= j < i ==> entries[j].id != id
  {
    if entries != [] {
      var n := |entries| - 1;
      var before := StartingEach(m, entries[..n]);
      StartsFirstOfEachId(m, entries[..n], id);
      if id in before.running {
        var i :| 0 <= i < n && entries[..n][i] == before.running[id].entry && entries[..n][i].id == id
              && forall j :: 0 <= j < i ==> entries[..n][j].id != id;
        assert entries[i] == before.running[id].entry && forall j :: 0 <= j < i ==> entries[j].id == entries[..n][j].id;
      } else {
        assert forall j :: 0 <= j < n ==> entries[j] == entries[..n][j];
      }
    }
  }

  /** A fresh manager's start_all runs exactly the enabled entries of its list, if and only if
      no two different enabled entries share an id. */
  lemma StartAllRunsEnabled(tunnels: seq<TunnelEntry>, file: File)
    ensures var m := Calling(NewManager(tunnels, file), StartAll);
      var enabled := set e | e in tunnels && e.enabled;
      var runs := set id | id in m.running :: m.running[id].entry;
      && runs <= enabled
      && (runs == enabled <==> forall a, b :: a in enabled && b in enabled && a.id == b.id ==> a == b)
  {
    var none, entries := NewManager(tunnels, file), EnabledOf(tunnels);
    var m := StartingEach(none, entries);
    var enabled, runs := set e | e in tunnels && e.enabled, set id | id in m.running :: m.running[id].entry;
    forall e ensures e in entries <==> e in enabled { EnabledMember(tunnels, e); }
    forall id | id in m.running ensures m.running[id].entry in enabled && m.running[id].entry.id == id {
      StartsFirstOfEachId(none, entries, id);
    }
    forall e | e in enabled ensures e.id in m.running {
      var i :| 0 <= i < |entries| && entries[i] == e;
      StartsFirstOfEachId(none, entries, e.id);
    }
    if runs == enabled {
      forall a, b | a in enabled && b in enabled && a.id == b.id ensures a == b {
        var k :| k in m.running && m.running[k].entry == a;
        var l :| l in m.running && m.running[l].entry == b;
      }
    }
    if forall a, b :: a in enabled && b in enabled && a.id == b.id ==> a == b {
      forall e | e in enabled ensures e in runs {
        assert m.running[e.id].entry == e;
      }
    }
  }

  // ---- Connecting and disconnecting ----

  class AppState {
    const disk: Disk
    var inner: TunnelManager?

    /** With saved credentials a manager is made, but nothing is started yet. */
    constructor (disk: Disk)
      ensures this.disk == disk && (inner != null <==> disk.credentials)
      ensures inner != null ==> inner.disk == disk && inner.View() == NewManager(LoadOrDefault(disk.tunnels), disk.tunnels)
      ensures inner != null ==> inner.config.tunnels == if disk.tunnels.Contents? then disk.tunnels.tunnels else []
    {
      this.disk := disk;
      inner := null;
      new;
      if disk.credentials {
        inner := new TunnelManager(LoadOrDefault(disk.tunnels), disk);
      }
    }

    /** A failing deletion of the credentials is ignored. */
    method Disconnect(deleted: bool)
      modifies this`inner, disk`credentials, if inner == null then {} else {inner}
      ensures inner == null && disk.credentials == (old(disk.credentials) && !deleted)
      ensures old(inner) != null ==> old(inner).View() == StoppingAll(old(inner.View()))
    {
      if inner != null {
        inner.StopAll();
        inner := null;
      }
      if deleted {
        disk.credentials := false;
      }
    }

    /** saved: whether saving the new credentials succeeds; left: whether a failing save leaves
        credentials that can be read. */
    method Connect(deleted: bool, saved: bool, left: bool) returns (ok: bool)
      modifies this`inner, disk`credentials, if inner == null then {} else {inner}
      ensures old(inner) != null ==> old(inner).View() == StoppingAll(old(inner.View()))
      ensures ok == saved && (inner != null <==> ok) && disk.credentials == (saved || left)
      ensures ok ==> fresh(inner) && inner.disk == disk
      ensures ok ==> inner.config.tunnels == if old(disk.tunnels).Contents? then old(disk.tunnels).tunnels else []
      ensures ok ==> inner.View() == Calling(NewManager(LoadOrDefault(old(disk.tunnels)), old(disk.tunnels)), StartAll)
    {
      Disconnect(deleted);
      disk.credentials := saved || left;
      if !saved {
        return false;
      }
      var manager := new TunnelManager(LoadOrDefault(disk.tunnels), disk);
      StartingEachKeepsStore(manager.View(), EnabledOf(manager.config.tunnels));
      manager.StartAll();
      inner := manager;
      return true;
    }
  }

  // ---- Connecting again ----

  // ---- What each call runs ----

  /** The tunnel runs from this entry under a task that did not exist before. */
  predicate StartedAfresh(m: Manager, after: Manager, id: string, entry: TunnelEntry) {
    id in after.running && after.running[id].entry == entry && after.running[id].task !in m.tasks
    && after.tasks == (if id in m.running then m.tasks - {m.running[id].task} else m.tasks) + {after.running[id].task}
  }

  /** All handles but this one are as they were. */
  ghost predicate OthersKept(m: Manager, after: Manager, id: string) {
    forall k :: k != id ==> (k in after.running <==> k in m.running) && (k in m.running ==> after.running[k] == m.running[k])
  }

  /** The tunnel does not run, and nothing but its own task, if it had one, is gone. */
  predicate LeftStopped(m: Manager, after: Manager, id: string) {
    id !in after.running && after.tasks == if id in m.running then m.tasks - {m.running[id].task} else m.tasks
  }

  predicate RunningKept(m: Manager, after: Manager) {
    after.running == m.running && after.tasks == m.tasks
  }

  /** Adding an enabled entry starts it, unless its id already runs, which is reported. A disabled, refused or unsaved
      one starts nothing. */
  lemma AddingRuns(m: Manager, entry: TunnelEntry, generated: string, save: SaveOutcome)
    requires Coherent(m)
    ensures var (after, answer) := AddingTunnel(m, entry, generated, save);
      var stored := Adding(m.store, entry, generated, save).1;
      match stored
      case Failure(e) => answer == Failure(Config(e)) && RunningKept(m, after)
      case Success(e) =>
        && OthersKept(m, after, e.id)
        && (!e.enabled ==> answer == Success(e) && RunningKept(m, after))
        && (e.enabled && e.id in m.running ==> answer == Failure(AlreadyRunning) && RunningKept(m, after))
        && (e.enabled && e.id !in m.running ==> answer == Success(e) && StartedAfresh(m, after, e.id, e))
  {
    hide Adding, DistinctIds, DistinctClientIds, RunningMatchesConfig;
  }

  lemma UpdatedEntry(s: Store, id: string, clientId: string, localAddr: string, enabled: bool, save: SaveOutcome)
    ensures var r := Updating(s, id, clientId, localAddr, enabled, save).1;
      r.Success? ==> r.value == TunnelEntry(id, clientId, localAddr, enabled)
  {
    hide Blank, Claimed, Position;
  }

  /** Updating restarts the tunnel from the stored entry if that is enabled. In all other cases it ends up stopped, also
      when the update is refused or cannot be saved. */
  lemma UpdatingRuns(m: Manager, id: string, clientId: string, localAddr: string, enabled: bool, save: SaveOutcome)
    requires Coherent(m)
    ensures var (after, answer) := UpdatingTunnel(m, id, clientId, localAddr, enabled, save);
      var stored := Updating(m.store, id, clientId, localAddr, enabled, save).1;
      && OthersKept(m, after, id)
      && match stored
         case Failure(e) => answer == Failure(Config(e)) && LeftStopped(m, after, id)
         case Success(e) =>
           && answer == Success(e) && e == TunnelEntry(id, clientId, localAddr, enabled)
           && (enabled ==> StartedAfresh(m, after, id, e))
           && (!enabled ==> LeftStopped(m, after, id))
  {
    hide Updating, DistinctIds, DistinctClientIds, RunningMatchesConfig, TasksMatchRunning;
    UpdatedEntry(m.store, id, clientId, localAddr, enabled, save);
    FreshTask(m);
  }

  /** Removing stops the tunnel, whether or not the config knows it and can be saved. */
  lemma RemovingRuns(m: Manager, id: string, save: SaveOutcome)
    requires Coherent(m)
    ensures var (after, answer) := RemovingTunnel(m, id, save);
      && OthersKept(m, after, id) && LeftStopped(m, after, id)
      && match Removing(m.store, id, save).1
         case Failure(e) => answer == Failure(Config(e))
         case Success(e) => answer == Success(e)
  {
    hide Removing, Coherent;
  }

  lemma StoppingRuns(m: Manager, id: string)
    ensures OthersKept(m, Stopping(m, id), id) && LeftStopped(m, Stopping(m, id), id)
  {
  }

  lemma FreshTask(m: Manager)
    requires Coherent(m)
    ensures m.spawned !in m.tasks
  {
    hide DistinctIds, DistinctClientIds, RunningMatchesConfig;
  }

  /** Starting by id runs the first listed entry of that id, if there is one and it does not run yet. */
  lemma StartingRuns(m: Manager, id: string)
    requires Coherent(m)
    ensures var (after, answer) := StartingById(m, id);
      if !HasId(m.store.tunnels, id) then answer == Failure(NotInConfig) && RunningKept(m, after)
      else if id in m.running then answer == Failure(AlreadyRunning) && RunningKept(m, after)
      else answer == Success(()) && OthersKept(m, after, id)
           && exists i :: 0 <= i < |m.store.tunnels| && m.store.tunnels[i].id == id && StartedAfresh(m, after, id, m.store.tunnels[i])
  {
    hide DistinctIds, DistinctClientIds, RunningMatchesConfig;
    PositionExists(m.store.tunnels, id);
    FreshTask(m);
    if HasId(m.store.tunnels, id) && id !in m.running {
      var p := Position(m.store.tunnels, id).value;
      assert StartedAfresh(m, StartingById(m, id).0, id, m.store.tunnels[p]);
    }
  }

  /** Restarting runs a listed tunnel afresh, whether it ran or not; an unlisted one is stopped. */
  lemma RestartingRuns(m: Manager, id: string)
    requires Coherent(m)
    ensures var (after, answer) := StartingById(Stopping(m, id), id);
      && OthersKept(m, after, id)
      && (answer.Success? <==> HasId(m.store.tunnels, id))
      && (answer.Failure? ==> answer == Failure(NotInConfig) && LeftStopped(m, after, id))
      && (answer.Success? ==>
           exists i :: 0 <= i < |m.store.tunnels| && m.store.tunnels[i].id == id && StartedAfresh(m, after, id, m.store.tunnels[i]))
  {
    hide DistinctIds, DistinctClientIds, RunningMatchesConfig;
    PositionExists(m.store.tunnels, id);
    StoppingRuns(m, id);
    FreshTask(m);
    if HasId(m.store.tunnels, id) {
      var p := Position(m.store.tunnels, id).value;
      assert StartedAfresh(m, StartingById(Stopping(m, id), id).0, id, m.store.tunnels[p]);
    }
  }

  /** Each call is the manager's operation of that name. */
  lemma CallsExactly(m: Manager)
    ensures forall e, g, save :: Calling(m, Mutate(Add(e, g), save)) == AddingTunnel(m, e, g, save).0
    ensures forall id, c, l, b, save :: Calling(m, Mutate(Update(id, c, l, b), save)) == UpdatingTunnel(m, id, c, l, b, save).0
    ensures forall id, save :: Calling(m, Mutate(Remove(id), save)) == RemovingTunnel(m, id, save).0
    ensures forall id :: Calling(m, Start(id)) == StartingById(m, id).0 && Calling(m, Stop(id)) == Stopping(m, id)
    ensures forall id :: Calling(m, Restart(id)) == StartingById(Stopping(m, id), id).0
    ensures Calling(m, StartAll) == StartingEach(m, EnabledOf(m.store.tunnels)) && Calling(m, StopAll) == StoppingAll(m)
  {
  }

  /** A fresh manager is coherent exactly when its list is. */
  lemma FreshExactlyWhen(tunnels: seq<TunnelEntry>, file: File)
    ensures Coherent(NewManager(tunnels, file)) <==> DistinctIds(tunnels) && DistinctClientIds(tunnels)
  {
  }

  /** The call changes the list in memory, and its save fails without having written it. */
  predicate CallLosesSave(m: Manager, call: Call) {
    call.Mutate? && LosesSave(m.store, call.mutation, call.save)
  }

  /** Only mutations touch the list or its file. */
  lemma CallTouchesStore(m: Manager, call: Call)
    ensures Calling(m, call).store == if call.Mutate? then Mutating(m.store, call.mutation, call.save).0 else m.store
  {
    hide Adding, Updating, Removing, StartingEach, EnabledOf, Starting, Stopping, Position;
    match call {
      case Mutate(Add(entry, generated), save) =>
        var (store, r) := Adding(m.store, entry, generated, save);
        StartIfEnabledKeepsStore(m.(store := store), r);
      case Mutate(Update(id, clientId, localAddr, enabled), save) =>
        var (store, r) := Updating(m.store, id, clientId, localAddr, enabled, save);
        StartIfEnabledKeepsStore(Stopping(m, id).(store := store), r);
      case Mutate(Remove(id), save) =>
      case Start(id) => StartByIdKeepsStore(m, id);
      case Stop(id) => StoppingKeepsStore(m, id);
      case Restart(id) =>
        StoppingKeepsStore(m, id);
        StartByIdKeepsStore(Stopping(m, id), id);
      case StartAll => StartingEachKeepsStore(m, EnabledOf(m.store.tunnels));
      case StopAll =>
    }
  }

  lemma StoppingKeepsStore(m: Manager, id: string)
    ensures Stopping(m, id).store == m.store
  {
  }

  lemma StartIfEnabledKeepsStore(m: Manager, r: Result<TunnelEntry, ConfigError>)
    ensures StartingIfEnabled(m, r).0.store == m.store
  {
  }

  lemma StartByIdKeepsStore(m: Manager, id: string)
    ensures StartingById(m, id).0.store == m.store
  {
  }

  /** The file stays what a load would need through a whole run exactly when no call of it loses its save. */
  lemma RunsReload(m: Manager, calls: seq<Call>)
    requires Reloads(m.store)
    ensures (forall k :: 0 <= k <= |calls| ==> Reloads(CallingEach(m, calls[..k]).store)) <==>
            (forall i :: 0 <= i < |calls| ==> !CallLosesSave(CallingEach(m, calls[..i]), calls[i]))
  {
    hide Calling, Reloads, CallLosesSave;
    if forall k :: 0 <= k <= |calls| ==> Reloads(CallingEach(m, calls[..k]).store) {
      forall i | 0 <= i < |calls| ensures !CallLosesSave(CallingEach(m, calls[..i]), calls[i]) {
        assert Reloads(CallingEach(m, calls[..i]).store) && Reloads(CallingEach(m, calls[..i + 1]).store);
        assert calls[..i + 1][..i] == calls[..i];
        CallReloads(CallingEach(m, calls[..i]), calls[i]);
      }
    }
    if forall i :: 0 <= i < |calls| ==> !CallLosesSave(CallingEach(m, calls[..i]), calls[i]) {
      ReloadsUpTo(m, calls, |calls|);
    }
  }

  lemma CallReloads(m: Manager, call: Call)
    requires Reloads(m.store)
    ensures Reloads(Calling(m, call).store) <==> !CallLosesSave(m, call)
  {
    hide Calling, Reloads, LosesSave;
    CallTouchesStore(m, call);
    if call.Mutate? {
      MutationReloads(m.store, call.mutation, call.save);
    }
  }

  /** A mutation that returns Ok brings the file up to date, whatever it was before. */
  lemma OkReloads(m: Manager, mutation: Mutation, save: SaveOutcome)
    requires Mutating(m.store, mutation, save).1.Success?
    ensures Reloads(Calling(m, Mutate(mutation, save)).store)
  {
    hide Calling, Mutating;
    CallTouchesStore(m, Mutate(mutation, save));
    MutationPersists(m.store, mutation, save);
  }

  lemma {:induction false} ReloadsUpTo(m: Manager, calls: seq<Call>, n: nat)
    requires Reloads(m.store) && n <= |calls|
    requires forall i :: 0 <= i < |calls| ==> !CallLosesSave(CallingEach(m, calls[..i]), calls[i])
    ensures forall k :: 0 <= k <= n ==> Reloads(CallingEach(m, calls[..k]).store)
  {
    hide Calling, Reloads, CallLosesSave;
    assert calls[..0] == [];
    if n > 0 {
      ReloadsUpTo(m, calls, n - 1);
      CallReloads(CallingEach(m, calls[..n - 1]), calls[n - 1]);
      assert calls[..n][..n - 1] == calls[..n - 1];
    }
  }

  /** However the list once came to be in its file, by being loaded from it or by a mutation that returned
      Ok, and whatever calls follow: as long as none of them loses its save, disconnecting stops everything,
      and connecting again has the same list and runs exactly its enabled entries. */
  lemma ReconnectRestores(m: Manager, calls: seq<Call>, from: nat)
    requires Coherent(m) && from <= |calls|
    requires forall i :: 0 <= i < |calls| ==> !CallReusesId(CallingEach(m, calls[..i]), calls[i])
    requires Reloads(CallingEach(m, calls[..from]).store)
    requires forall i :: from <= i < |calls| ==> !CallLosesSave(CallingEach(m, calls[..i]), calls[i])
    ensures Restored(CallingEach(m, calls))
  {
    hide Calling, Reloads, CallLosesSave, Coherent, CallReusesId, Restored;
    RunsKeepCoherent(m, calls);
    var middle, later := CallingEach(m, calls[..from]), calls[from..];
    forall i ensures 0 <= i <= |later| ==> CallingEach(middle, later[..i]) == CallingEach(m, calls[..from + i]) {
      if 0 <= i <= |later| { RunsCompose(m, calls, from, i); }
    }
    ReloadsUpTo(middle, later, |later|);
    assert later[..|later|] == later && calls[..from + |later|] == calls;
    RestoredExactlyWhen(CallingEach(m, calls));
  }

  lemma {:induction false} RunsCompose(m: Manager, calls: seq<Call>, from: nat, i: nat)
    requires from + i <= |calls|
    ensures CallingEach(CallingEach(m, calls[..from]), calls[from..][..i]) == CallingEach(m, calls[..from + i])
  {
    hide Calling;
    if i == 0 {
      assert calls[from..][..0] == [];
    } else {
      RunsCompose(m, calls, from, i - 1);
      assert calls[from..][..i][..i - 1] == calls[from..][..i - 1] && calls[..from + i][..from + i - 1] == calls[..from + (i - 1)];
    }
  }

  /** Disconnecting this manager and connecting again: nothing runs in between; afterwards the list is the
      same, and exactly its enabled entries run. */
  ghost predicate Restored(before: Manager) {
    var stopped := StoppingAll(before);
    var after := Calling(NewManager(LoadOrDefault(stopped.store.file), stopped.store.file), StartAll);
    && stopped.running == map[] && stopped.tasks == {}
    && after.store.tunnels == before.store.tunnels
    && (set id | id in after.running :: after.running[id].entry) == (set e | e in before.store.tunnels && e.enabled)
  }

  /** For a coherent manager that is so exactly when loading the file gives the list it holds. */
  lemma RestoredExactlyWhen(m: Manager)
    requires Coherent(m)
    ensures Restored(m) <==> Reloads(m.store)
  {
    hide StartingEach, EnabledOf, RunningMatchesConfig, TasksMatchRunning;
    StoppingAllStops(m);
    var loaded := NewManager(LoadOrDefault(m.store.file), m.store.file);
    StartingEachKeepsStore(loaded, EnabledOf(loaded.store.tunnels));
    StartAllRunsEnabled(loaded.store.tunnels, m.store.file);
    var tunnels := m.store.tunnels;
    forall a, b | a in tunnels && b in tunnels && a.id == b.id ensures a == b {
      var i :| 0 <= i < |tunnels| && tunnels[i] == a;
      var j :| 0 <= j < |tunnels| && tunnels[j] == b;
    }
  }

  lemma {:induction false} StartingEachKeepsStore(m: Manager, entries: seq<TunnelEntry>)
    ensures StartingEach(m, entries).store == m.store
  {
    if entries != [] {
      StartingEachKeepsStore(m, entries[..|entries| - 1]);
    }
  }
}
