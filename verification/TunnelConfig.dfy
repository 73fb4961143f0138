/** The client's persisted tunnel list (TunnelsConfig). */
module TunnelConfig {
  import opened Common
  import opened Selecting

  datatype TunnelEntry = TunnelEntry(id: string, clientId: string, localAddr: string, enabled: bool)

  /** tunnels.yaml on disk. */
  datatype File = Missing | Unreadable | Contents(tunnels: seq<TunnelEntry>)

  /** How one save goes. A failing save may have left the old file, a damaged one, or (when
      only setting permissions failed) the new one. */
  datatype SaveOutcome = Saved | FailedBefore | FailedMidway(left: File) | FailedAfter

  function FileAfter(file: File, tunnels: seq<TunnelEntry>, save: SaveOutcome): File {
    match save
    case Saved => Contents(tunnels)
    case FailedBefore => file
    case FailedMidway(left) => left
    case FailedAfter => Contents(tunnels)
  }

  /** TunnelsConfig::load().unwrap_or_default() */
  function LoadOrDefault(file: File): seq<TunnelEntry> {
    if file.Contents? then file.tunnels else []
  }

  datatype Store = Store(tunnels: seq<TunnelEntry>, file: File)

  datatype ConfigError = BlankClientId | BlankLocalAddr | DuplicateClientId | NotFound | SaveFailed

  /** Unicode White_Space, what str::trim strips. */
  predicate IsSpace(c: char) {
    '\t' <= c <= '\r' || c == ' ' || c == '\U{85}' || c == '\U{A0}' || c == '\U{1680}'
    || '\U{2000}' <= c <= '\U{200A}' || c == '\U{2028}' || c == '\U{2029}' || c == '\U{202F}'
    || c == '\U{205F}' || c == '\U{3000}'
  }

  /** s.trim().is_empty() */
  predicate Blank(s: string) {
    forall i :: 0 <= i < |s| ==> IsSpace(s[i])
  }

  /** Some tunnel other than the excepted one claims this name. */
  predicate Claimed(tunnels: seq<TunnelEntry>, clientId: string, except: Option<string>) {
    exists i :: 0 <= i < |tunnels| && tunnels[i].clientId == clientId && except != Some(tunnels[i].id)
  }

  /** The first tunnel with this id. */
  function Position(tunnels: seq<TunnelEntry>, id: string): (p: Option<nat>)
    ensures p.Some? ==> p.value < |tunnels| && tunnels[p.value].id == id
    ensures p.Some? ==> forall i :: 0 <= i < p.value ==> tunnels[i].id != id
    ensures p.None? ==> forall i :: 0 <= i < |tunnels| ==> tunnels[i].id != id
  {
    if tunnels == [] then None
    else if tunnels[0].id == id then Some(0)
    else match Position(tunnels[1..], id)
      case None => None
      case Some(p) => Some(p + 1)
  }

  function WithId(entry: TunnelEntry, generated: string): TunnelEntry {
    if entry.id == "" then entry.(id := generated) else entry
  }

  datatype Mutation =
    | Add(entry: TunnelEntry, generated: string)
    | Update(id: string, clientId: string, localAddr: string, enabled: bool)
    | Remove(target: string)

  predicate HasId(tunnels: seq<TunnelEntry>, id: string) {
    exists i :: 0 <= i < |tunnels| && tunnels[i].id == id
  }

  /** The mutation passes validation, and so changes the list and saves it. */
  predicate Accepted(tunnels: seq<TunnelEntry>, m: Mutation) {
    match m
    case Add(entry, _) =>
      !Blank(entry.clientId) && !Blank(entry.localAddr) && !Claimed(tunnels, entry.clientId, None)
    case Update(id, clientId, localAddr, _) =>
      !Blank(clientId) && !Blank(localAddr) && !Claimed(tunnels, clientId, Some(id)) && HasId(tunnels, id)
    case Remove(id) => HasId(tunnels, id)
  }

  /** The addition stores its entry under an id that is already in use. */
  predicate ReusesId(tunnels: seq<TunnelEntry>, entry: TunnelEntry, generated: string) {
    Accepted(tunnels, Add(entry, generated)) && HasId(tunnels, WithId(entry, generated).id)
  }

  function Persist<T>(s: Store, save: SaveOutcome, value: T): (Store, Result<T, ConfigError>) {
    (s.(file := FileAfter(s.file, s.tunnels, save)), if save.Saved? then Success(value) else Failure(SaveFailed))
  }

  function Adding(s: Store, entry: TunnelEntry, generated: string, save: SaveOutcome): (Store, Result<TunnelEntry, ConfigError>) {
    var e := WithId(entry, generated);
    if Blank(e.clientId) then (s, Failure(BlankClientId))
    else if Blank(e.localAddr) then (s, Failure(BlankLocalAddr))
    else if Claimed(s.tunnels, e.clientId, None) then (s, Failure(DuplicateClientId))
    else Persist(s.(tunnels := s.tunnels + [e]), save, e)
  }

  function Updating(s: Store, id: string, clientId: string, localAddr: string, enabled: bool, save: SaveOutcome)
    : (Store, Result<TunnelEntry, ConfigError>)
  {
    if Blank(clientId) then (s, Failure(BlankClientId))
    else if Blank(localAddr) then (s, Failure(BlankLocalAddr))
    else if Claimed(s.tunnels, clientId, Some(id)) then (s, Failure(DuplicateClientId))
    else match Position(s.tunnels, id)
      case None => (s, Failure(NotFound))
      case Some(p) =>
        var e := TunnelEntry(id, clientId, localAddr, enabled);
        Persist(s.(tunnels := s.tunnels[p := e]), save, e)
  }

  function Removing(s: Store, id: string, save: SaveOutcome): (Store, Result<TunnelEntry, ConfigError>) {
    match Position(s.tunnels, id)
    case None => (s, Failure(NotFound))
    case Some(p) => Persist(s.(tunnels := s.tunnels[..p] + s.tunnels[p + 1..]), save, s.tunnels[p])
  }

  class Disk {
    var tunnels: File
    var credentials: bool

    constructor (tunnels: File, credentials: bool)
      ensures this.tunnels == tunnels && this.credentials == credentials
    {
      this.tunnels, this.credentials := tunnels, credentials;
    }
  }

  class TunnelsConfig {
    var tunnels: seq<TunnelEntry>

    constructor (tunnels: seq<TunnelEntry>)
      ensures this.tunnels == tunnels
    {
      this.tunnels := tunnels;
    }

    method Save(disk: Disk, save: SaveOutcome) returns (ok: bool)
      modifies disk`tunnels
      ensures disk.tunnels == FileAfter(old(disk.tunnels), tunnels, save) && ok == save.Saved?
    {
      disk.tunnels := FileAfter(disk.tunnels, tunnels, save);
      return save.Saved?;
    }

    method AnyOther(clientId: string, except: Option<string>) returns (found: bool)
      ensures found == Claimed(tunnels, clientId, except)
    {
      var i := 0;
      while i < |tunnels|
        invariant i <= |tunnels|
        invariant forall j :: 0 <= j < i ==> tunnels[j].clientId != clientId || except == Some(tunnels[j].id)
      {
        if tunnels[i].clientId == clientId && except != Some(tunnels[i].id) {
          return true;
        }
        i := i + 1;
      }
      return false;
    }

    method FindPosition(id: string) returns (p: Option<nat>)
      ensures p == Position(tunnels, id)
    {
      var i := 0;
      while i < |tunnels|
        invariant i <= |tunnels|
        invariant forall j :: 0 <= j < i ==> tunnels[j].id != id
      {
        if tunnels[i].id == id {
          return Some(i);
        }
        i := i + 1;
      }
      return None;
    }

    method AddTunnel(entry: TunnelEntry, generated: string, disk: Disk, save: SaveOutcome)
      returns (r: Result<TunnelEntry, ConfigError>)
      modifies this, disk`tunnels
      ensures (Store(tunnels, disk.tunnels), r) == Adding(Store(old(tunnels), old(disk.tunnels)), entry, generated, save)
    {
      var e := entry;
      if e.id == "" {
        e := e.(id := generated);
      }
      if Blank(e.clientId) {
        return Failure(BlankClientId);
      }
      if Blank(e.localAddr) {
        return Failure(BlankLocalAddr);
      }
      var taken := AnyOther(e.clientId, None);
      if taken {
        return Failure(DuplicateClientId);
      }
      tunnels := tunnels + [e];
      var ok := Save(disk, save);
      return if ok then Success(e) else Failure(SaveFailed);
    }

    method UpdateTunnel(id: string, clientId: string, localAddr: string, enabled: bool, disk: Disk, save: SaveOutcome)
      returns (r: Result<TunnelEntry, ConfigError>)
      modifies this, disk`tunnels
      ensures (Store(tunnels, disk.tunnels), r)
           == Updating(Store(old(tunnels), old(disk.tunnels)), id, clientId, localAddr, enabled, save)
    {
      if Blank(clientId) {
        return Failure(BlankClientId);
      }
      if Blank(localAddr) {
        return Failure(BlankLocalAddr);
      }
      var taken := AnyOther(clientId, Some(id));
      if taken {
        return Failure(DuplicateClientId);
      }
      var p := FindPosition(id);
      if p == None {
        return Failure(NotFound);
      }
      var updated := tunnels[p.value].(clientId := clientId, localAddr := localAddr, enabled := enabled);
      tunnels := tunnels[p.value := updated];
      var ok := Save(disk, save);
      return if ok then Success(updated) else Failure(SaveFailed);
    }

    method RemoveTunnel(id: string, disk: Disk, save: SaveOutcome) returns (r: Result<TunnelEntry, ConfigError>)
      modifies this, disk`tunnels
      ensures (Store(tunnels, disk.tunnels), r) == Removing(Store(old(tunnels), old(disk.tunnels)), id, save)
    {
      var p := FindPosition(id);
      if p == None {
        return Failure(NotFound);
      }
      var removed := tunnels[p.value];
      tunnels := tunnels[..p.value] + tunnels[p.value + 1..];
      var ok := Save(disk, save);
      return if ok then Success(removed) else Failure(SaveFailed);
    }

    method GetTunnel(id: string) returns (e: Option<TunnelEntry>)
      ensures e == match Position(tunnels, id) case None => None case Some(p) => Some(tunnels[p])
    {
      var p := FindPosition(id);
      return if p == None then None else Some(tunnels[p.value]);
    }
  }

  // ---- What the list keeps ----

  ghost predicate DistinctIds(tunnels: seq<TunnelEntry>) {
    forall i, j :: 0 <= i < j < |tunnels| ==> tunnels[i].id != tunnels[j].id
  }

  ghost predicate DistinctClientIds(tunnels: seq<TunnelEntry>) {
    forall i, j :: 0 <= i < j < |tunnels| ==> tunnels[i].clientId != tunnels[j].clientId
  }

  /** Exactly the 25 characters that Unicode calls white space. */
  lemma SpacesExactly(c: char)
    ensures IsSpace(c) <==> c as int in {9, 10, 11, 12, 13, 0x20, 0x85, 0xA0, 0x1680,
                                         0x2000, 0x2001, 0x2002, 0x2003, 0x2004, 0x2005, 0x2006, 0x2007, 0x2008, 0x2009, 0x200A,
                                         0x2028, 0x2029, 0x202F, 0x205F, 0x3000}
  {
  }

  /** s.trim(), space by space from both ends. */
  function Trim(s: string): string {
    if s == "" then ""
    else if IsSpace(s[0]) then Trim(s[1..])
    else if IsSpace(s[|s| - 1]) then Trim(s[..|s| - 1])
    else s
  }

  /** A string is blank exactly when trimming leaves nothing. */
  lemma {:induction false} BlankExactlyWhen(s: string)
    ensures Blank(s) <==> Trim(s) == ""
  {
    if s != "" {
      if IsSpace(s[0]) {
        BlankExactlyWhen(s[1..]);
        if Blank(s[1..]) {
          forall i | 0 <= i < |s| ensures IsSpace(s[i]) { assert i > 0 ==> s[i] == s[1..][i - 1]; }
        }
      } else if IsSpace(s[|s| - 1]) {
        BlankExactlyWhen(s[..|s| - 1]);
      }
    }
  }

  // ---- What each mutation does ----

  /** An addition: which error it gives, checks in their order, and otherwise the list with the entry, under its own
      id or else the generated one, at its end. */
  lemma AddedExactly(s: Store, entry: TunnelEntry, generated: string, save: SaveOutcome)
    ensures var (t, r) := Adding(s, entry, generated, save);
      var claimed := exists i :: 0 <= i < |s.tunnels| && s.tunnels[i].clientId == entry.clientId;
      if Blank(entry.clientId) then t == s && r == Failure(BlankClientId)
      else if Blank(entry.localAddr) then t == s && r == Failure(BlankLocalAddr)
      else if claimed then t == s && r == Failure(DuplicateClientId)
      else
        var e := TunnelEntry(if entry.id == "" then generated else entry.id, entry.clientId, entry.localAddr, entry.enabled);
        && t.tunnels == s.tunnels + [e]
        && r == (if save.Saved? then Success(e) else Failure(SaveFailed))
  {
  }

  /** An update: the same for its errors, and otherwise the list with the first tunnel of that id changed
      and every other as it was. */
  lemma UpdatedExactly(s: Store, id: string, clientId: string, localAddr: string, enabled: bool, save: SaveOutcome)
    ensures var (t, r) := Updating(s, id, clientId, localAddr, enabled, save);
      var claimed := exists i :: 0 <= i < |s.tunnels| && s.tunnels[i].clientId == clientId && s.tunnels[i].id != id;
      if Blank(clientId) then t == s && r == Failure(BlankClientId)
      else if Blank(localAddr) then t == s && r == Failure(BlankLocalAddr)
      else if claimed then t == s && r == Failure(DuplicateClientId)
      else if forall i :: 0 <= i < |s.tunnels| ==> s.tunnels[i].id != id then t == s && r == Failure(NotFound)
      else
        var e := TunnelEntry(id, clientId, localAddr, enabled);
        && r == (if save.Saved? then Success(e) else Failure(SaveFailed))
        && |t.tunnels| == |s.tunnels|
        && forall i :: 0 <= i < |s.tunnels| ==>
             t.tunnels[i] == if s.tunnels[i].id == id && (forall j :: 0 <= j < i ==> s.tunnels[j].id != id) then e else s.tunnels[i]
  {
  }

  /** A removal: an unknown id is an error; otherwise the first tunnel of that id is gone and returned, the others
      stay in their order. */
  lemma RemovedExactly(s: Store, id: string, save: SaveOutcome) returns (p: nat)
    ensures var (t, r) := Removing(s, id, save);
      if forall i :: 0 <= i < |s.tunnels| ==> s.tunnels[i].id != id then t == s && r == Failure(NotFound)
      else
        && p < |s.tunnels| && s.tunnels[p].id == id && (forall j :: 0 <= j < p ==> s.tunnels[j].id != id)
        && r == (if save.Saved? then Success(s.tunnels[p]) else Failure(SaveFailed))
        && |t.tunnels| == |s.tunnels| - 1
        && (forall i :: 0 <= i < p ==> t.tunnels[i] == s.tunnels[i])
        && (forall i :: p <= i < |t.tunnels| ==> t.tunnels[i] == s.tunnels[i + 1])
  {
    p := Position(s.tunnels, id).GetOr(0);
  }

  /** Adding keeps client ids distinct always, and ids distinct exactly when the entry is
      refused by validation or its id is not in use. */
  lemma AddingKeepsDistinct(s: Store, entry: TunnelEntry, generated: string, save: SaveOutcome)
    requires DistinctIds(s.tunnels) && DistinctClientIds(s.tunnels)
    ensures DistinctClientIds(Adding(s, entry, generated, save).0.tunnels)
    ensures DistinctIds(Adding(s, entry, generated, save).0.tunnels) <==> !ReusesId(s.tunnels, entry, generated)
  {
    var t := Adding(s, entry, generated, save).0.tunnels;
    if ReusesId(s.tunnels, entry, generated) {
      var i :| 0 <= i < |s.tunnels| && s.tunnels[i].id == WithId(entry, generated).id;
      assert t[i].id == t[|s.tunnels|].id;
    }
  }

  lemma UpdatingKeepsDistinct(s: Store, id: string, clientId: string, localAddr: string, enabled: bool, save: SaveOutcome)
    requires DistinctIds(s.tunnels) && DistinctClientIds(s.tunnels)
    ensures DistinctIds(Updating(s, id, clientId, localAddr, enabled, save).0.tunnels)
    ensures DistinctClientIds(Updating(s, id, clientId, localAddr, enabled, save).0.tunnels)
  {
  }

  lemma RemovingKeepsDistinct(s: Store, id: string, save: SaveOutcome)
    requires DistinctIds(s.tunnels) && DistinctClientIds(s.tunnels)
    ensures DistinctIds(Removing(s, id, save).0.tunnels) && DistinctClientIds(Removing(s, id, save).0.tunnels)
    ensures !HasId(Removing(s, id, save).0.tunnels, id)
  {
  }

  function Mutating(s: Store, m: Mutation, save: SaveOutcome): (Store, Result<TunnelEntry, ConfigError>) {
    match m
    case Add(entry, generated) => Adding(s, entry, generated, save)
    case Update(id, clientId, localAddr, enabled) => Updating(s, id, clientId, localAddr, enabled, save)
    case Remove(id) => Removing(s, id, save)
  }

  /** An accepted mutation changes the list and saves it, whatever comes of the save, and
      returns Ok exactly if the save succeeds; any other changes nothing. */
  lemma AcceptedExactlyWhen(s: Store, m: Mutation, save: SaveOutcome)
    ensures var (t, r) := Mutating(s, m, save);
      && (Accepted(s.tunnels, m) ==> t.file == FileAfter(s.file, t.tunnels, save) && t.tunnels == Mutating(s, m, Saved).0.tunnels)
      && (Accepted(s.tunnels, m) ==> if save.Saved? then r.Success? else r == Failure(SaveFailed))
      && (!Accepted(s.tunnels, m) ==> t == s && r.Failure? && r.error != SaveFailed)
  {
    hide Blank, Claimed, HasId, Position;
    match m {
      case Add(_, _) =>
      case Update(id, _, _, _) => PositionExists(s.tunnels, id);
      case Remove(id) => PositionExists(s.tunnels, id);
    }
  }

  lemma PositionExists(tunnels: seq<TunnelEntry>, id: string)
    ensures Position(tunnels, id).Some? <==> HasId(tunnels, id)
  {
    hide Position;
  }

  /** A mutation that returns Ok has saved exactly the list in memory; one refused for any
      reason but saving changes nothing; one whose save fails has changed the memory all the same. */
  lemma MutationPersists(s: Store, m: Mutation, save: SaveOutcome)
    ensures var (t, r) := Mutating(s, m, save);
      && (r.Success? ==> t.file == Contents(t.tunnels))
      && (r.Failure? && r.error != SaveFailed ==> t == s)
      && (r == Failure(SaveFailed) ==> Mutating(s, m, Saved).1.Success? && t.tunnels == Mutating(s, m, Saved).0.tunnels)
  {
  }

  // ---- What the next start loads ----

  /** Loading the file would give the list in memory. */
  predicate Reloads(s: Store) {
    LoadOrDefault(s.file) == s.tunnels
  }

  /** A save is followed by a load of the same list if it succeeded or failed only after writing; if it
      failed before, exactly when the old file already had that list; if it failed in the
      middle, exactly when what it left happens to read as that list. */
  lemma SaveThenLoad(s: Store, save: SaveOutcome)
    ensures Reloads(s.(file := FileAfter(s.file, s.tunnels, save))) <==>
            (save.FailedBefore? ==> Reloads(s)) && (save.FailedMidway? ==> LoadOrDefault(save.left) == s.tunnels)
  {
  }

  /** The accepted mutation leaves the list as it is: an update that changes nothing. */
  predicate Idle(tunnels: seq<TunnelEntry>, m: Mutation) {
    && m.Update?
    && exists i :: 0 <= i < |tunnels| && tunnels[i] == TunnelEntry(m.id, m.clientId, m.localAddr, m.enabled)
                   && forall j :: 0 <= j < i ==> tunnels[j].id != m.id
  }

  /** The list changes in memory, and the save fails without having written it. */
  predicate LosesSave(s: Store, m: Mutation, save: SaveOutcome) {
    Accepted(s.tunnels, m) &&
    match save
    case Saved => false
    case FailedAfter => false
    case FailedBefore => !Idle(s.tunnels, m)
    case FailedMidway(left) => LoadOrDefault(left) != Mutating(s, m, Saved).0.tunnels
  }

  lemma IdleExactlyWhen(s: Store, m: Mutation)
    requires Accepted(s.tunnels, m)
    ensures Mutating(s, m, Saved).0.tunnels == s.tunnels <==> Idle(s.tunnels, m)
  {
    if m.Update? {
      var p := Position(s.tunnels, m.id).value;
      assert Mutating(s, m, Saved).0.tunnels[p] == TunnelEntry(m.id, m.clientId, m.localAddr, m.enabled);
    }
  }

  /** From a list that the file has, a mutation keeps it so exactly when it loses no save. */
  lemma MutationReloads(s: Store, m: Mutation, save: SaveOutcome)
    requires Reloads(s)
    ensures Reloads(Mutating(s, m, save).0) <==> !LosesSave(s, m, save)
  {
    AcceptedExactlyWhen(s, m, save);
    if Accepted(s.tunnels, m) {
      IdleExactlyWhen(s, m);
    }
  }
}
