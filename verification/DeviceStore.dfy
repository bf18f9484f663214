/** The device store on Unix: loading it, and the upsert that re-serialises it through a map
    whose enumeration order is arbitrary. JSON and sealing are library code; what is written is
    read back. */
module DeviceStore {
  import opened Basics
  import Hex

  const KEY_SIZE := 32

  datatype DeviceConfig = DeviceConfig(id: string, keyHex: string)

  datatype DeviceState = DeviceState(id: string, staticKey: bytes)

  type Devices = map<string, DeviceState>

  datatype StoreError =
    | NotPaired | Unavailable | EmptyID | BadHex | BadKeyLen | NotSaved

  /** The devices file: absent, unreadable (no permission, no keyring, not JSON), or a list. */
  datatype Disk = Missing | Unreadable | File(list: seq<DeviceConfig>)

  function KeyOf(keyHex: string): Result<bytes, StoreError> {
    match Hex.Decode(keyHex)
    case None => Err(BadHex)
    case Some(k) => if |k| != KEY_SIZE then Err(BadKeyLen) else Ok(k)
  }

  /** The map of a list of entries; a later entry with the same id wins, the first bad one decides the error. */
  function MapOf(list: seq<DeviceConfig>): Result<Devices, StoreError> {
    if list == [] then Ok(map[])
    else
      var front, d := MapOf(list[..|list| - 1]), list[|list| - 1];
      if front.Err? then front
      else if d.id == "" then Err(EmptyID)
      else
        match KeyOf(d.keyHex)
        case Err(e) => Err(e)
        case Ok(k) => Ok(front.value[d.id := DeviceState(d.id, k)])
  }

  lemma {:induction false} ErrorPersists(list: seq<DeviceConfig>, n: nat)
    requires n <= |list| && MapOf(list[..n]).Err?
    ensures MapOf(list) == MapOf(list[..n])
    decreases |list| - n
  {
    if n < |list| {
      assert list[..n + 1][..n] == list[..n];
      ErrorPersists(list, n + 1);
    } else {
      assert list[..n] == list;
    }
  }

  method BuildDevicesMap(list: seq<DeviceConfig>) returns (r: Result<Devices, StoreError>)
    ensures r == if list == [] then Err(NotPaired) else MapOf(list)
  {
    if |list| == 0 {
      return Err(NotPaired);
    }
    var m: Devices := map[];
    for i := 0 to |list|
      invariant MapOf(list[..i]) == Ok(m)
    {
      var d := list[i];
      assert list[..i + 1][..i] == list[..i];
      if d.id == "" {
        ErrorPersists(list, i + 1);
        return Err(EmptyID);
      }
      var keyBytes := Hex.Decode(d.keyHex);
      if keyBytes.None? {
        ErrorPersists(list, i + 1);
        return Err(BadHex);
      }
      if |keyBytes.value| != KEY_SIZE {
        ErrorPersists(list, i + 1);
        return Err(BadKeyLen);
      }
      m := m[d.id := DeviceState(d.id, keyBytes.value)];
    }
    assert list[..|list|] == list;
    return Ok(m);
  }

  function Load(disk: Disk): Result<Devices, StoreError> {
    match disk
    case Missing => Err(NotPaired)
    case Unreadable => Err(Unavailable)
    case File(list) => if list == [] then Err(NotPaired) else MapOf(list)
  }

  /** Every loaded device carries its own id and a 32-byte key. */
  ghost predicate Sound(m: Devices) {
    forall id :: id in m ==> id != "" && m[id].id == id && |m[id].staticKey| == KEY_SIZE
  }

  lemma {:induction false} LoadedIsSound(list: seq<DeviceConfig>)
    requires MapOf(list).Ok?
    ensures Sound(MapOf(list).value)
  {
    if list != [] {
      LoadedIsSound(list[..|list| - 1]);
    }
  }

  // ---- The loaded map, entry by entry ------------------------------------------------------------

  /** A name, and a key that is 32 bytes in hex. */
  ghost predicate GoodEntry(d: DeviceConfig) {
    d.id != "" && Hex.Decode(d.keyHex).Some? && |Hex.Decode(d.keyHex).value| == 32
  }

  /** What a bad entry is refused for. */
  ghost function Flaw(d: DeviceConfig): StoreError {
    if d.id == "" then EmptyID else if Hex.Decode(d.keyHex).None? then BadHex else BadKeyLen
  }

  ghost predicate FirstBad(list: seq<DeviceConfig>, i: nat) {
    i < |list| && !GoodEntry(list[i]) && forall j :: 0 <= j < i ==> GoodEntry(list[j])
  }

  ghost predicate AllGood(list: seq<DeviceConfig>) {
    forall j :: 0 <= j < |list| ==> GoodEntry(list[j])
  }

  lemma KeyOfMeans(d: DeviceConfig)
    ensures GoodEntry(d) ==> KeyOf(d.keyHex) == Ok(Hex.Decode(d.keyHex).value)
    ensures !GoodEntry(d) && d.id != "" ==> KeyOf(d.keyHex) == Err(Flaw(d))
  {
  }

  /** A list loads exactly if all its entries are good; otherwise the first bad one says why not. */
  lemma {:induction false} LoadsIffAllGood(list: seq<DeviceConfig>) returns (bad: Option<nat>)
    ensures bad.None? ==> AllGood(list) && MapOf(list).Ok?
    ensures bad.Some? ==> FirstBad(list, bad.value) && MapOf(list) == Err(Flaw(list[bad.value]))
  {
    if list == [] {
      return None;
    }
    var front, last := list[..|list| - 1], list[|list| - 1];
    bad := LoadsIffAllGood(front);
    KeyOfMeans(last);
    if bad.None? && !GoodEntry(last) {
      bad := Some(|list| - 1);
    }
  }

  /** Entry `i` is the last one of `id`. */
  ghost predicate LastEntryOf(list: seq<DeviceConfig>, id: string, i: nat) {
    i < |list| && list[i].id == id && forall j :: i < j < |list| ==> list[j].id != id
  }

  /** The loaded map has an id exactly if some entry has, with the key of the last such entry. */
  lemma {:induction false} LastEntryWins(list: seq<DeviceConfig>, id: string) returns (i: Option<nat>)
    requires MapOf(list).Ok?
    ensures i.None? ==> id !in MapOf(list).value && forall j :: 0 <= j < |list| ==> list[j].id != id
    ensures i.Some? ==>
              && LastEntryOf(list, id, i.value) && id in MapOf(list).value
              && MapOf(list).value[id].id == id
              && Some(MapOf(list).value[id].staticKey) == Hex.Decode(list[i.value].keyHex)
  {
    if list == [] {
      return None;
    }
    var front, last := list[..|list| - 1], list[|list| - 1];
    if last.id == id {
      return Some(|list| - 1);
    }
    i := LastEntryWins(front, id);
  }

  /** `list` enumerates `m` in some order, each entry once. */
  ghost predicate Enumerates(list: seq<DeviceConfig>, m: Devices) {
    && (forall i, j :: 0 <= i < j < |list| ==> list[i].id != list[j].id)
    && (forall i :: 0 <= i < |list| ==>
          list[i].id in m && list[i].keyHex == Hex.Encode(m[list[i].id].staticKey))
    && (forall id :: id in m ==> exists i :: 0 <= i < |list| && list[i].id == id)
  }

  lemma FrontEnumerates(list: seq<DeviceConfig>, m: Devices)
    requires list != [] && Enumerates(list, m)
    ensures Enumerates(list[..|list| - 1], m - {list[|list| - 1].id})
  {
    var front, last := list[..|list| - 1], list[|list| - 1];
    forall id | id in m - {last.id}
      ensures exists i :: 0 <= i < |front| && front[i].id == id
    {
      var i :| 0 <= i < |list| && list[i].id == id;
      assert front[i].id == id;
    }
  }

  lemma OneMoreEntry(list: seq<DeviceConfig>, m: Devices, key: bytes)
    requires list != [] && MapOf(list[..|list| - 1]) == Ok(m)
    requires list[|list| - 1].id != "" && list[|list| - 1].keyHex == Hex.Encode(key) && |key| == KEY_SIZE
    ensures MapOf(list) == Ok(m[list[|list| - 1].id := DeviceState(list[|list| - 1].id, key)])
  {
    Hex.DecodeEncode(key);
  }

  lemma PutBack(m: Devices, id: string)
    requires id in m
    ensures (m - {id})[id := m[id]] == m
  {
  }

  /** Whatever the order, the written list reads back as the map. */
  lemma {:induction false} EnumerationReadsBack(list: seq<DeviceConfig>, m: Devices)
    requires Sound(m) && Enumerates(list, m)
    ensures MapOf(list) == Ok(m)
  {
    if list == [] {
      assert m == map[];
    } else {
      var id := list[|list| - 1].id;
      FrontEnumerates(list, m);
      EnumerationReadsBack(list[..|list| - 1], m - {id});
      OneMoreEntry(list, m - {id}, m[id].staticKey);
      PutBack(m, id);
      assert m[id] == DeviceState(id, m[id].staticKey);
    }
  }

  class DeviceFile {
    var disk: Disk

    constructor (disk: Disk)
      ensures this.disk == disk
    {
      this.disk := disk;
    }

    /** `saves` says whether the file can be written: a failed write leaves the old file. */
    method WriteDevicesFile(deviceID: string, deviceKeyHex: string, saves: bool) returns (r: Option<StoreError>)
      modifies this
      ensures r == Refusal(old(disk), deviceID, deviceKeyHex, saves)
      ensures r.Some? ==> disk == old(disk)
      ensures r.None? ==> disk.File? && Enumerates(disk.list, Upserted(old(disk), deviceID, deviceKeyHex))
    {
      if deviceID == "" {
        return Some(EmptyID);
      }
      var k := Hex.Decode(deviceKeyHex);
      if k.None? {
        return Some(BadHex);
      }
      if |k.value| != KEY_SIZE {
        return Some(BadKeyLen);
      }
      var existing: Devices := map[];
      match Load(disk) {
        case Ok(m) => existing := m;
        case Err(e) =>
          if e != NotPaired {
            return Some(e);
          }
      }
      existing := existing[deviceID := DeviceState(deviceID, k.value)];
      ExistingIsSound(disk, deviceID, deviceKeyHex);

      var list: seq<DeviceConfig> := [];
      var todo := existing.Keys;
      while todo != {}
        invariant todo <= existing.Keys
        invariant Enumerates(list, existing - todo) && disk == old(disk)
        decreases todo
      {
        var id :| id in todo;
        var st := existing[id];
        EnumerateOne(list, existing, todo, id);
        todo := todo - {id};
        list := list + [DeviceConfig(st.id, Hex.Encode(st.staticKey))];
      }
      assert existing - {} == existing;
      if !saves {
        return Some(NotSaved);
      }
      disk := File(list);
      return None;
    }
  }

  lemma EnumerateOne(list: seq<DeviceConfig>, m: Devices, todo: set<string>, id: string)
    requires Sound(m) && id in todo && todo <= m.Keys && Enumerates(list, m - todo)
    ensures Enumerates(list + [DeviceConfig(m[id].id, Hex.Encode(m[id].staticKey))], m - (todo - {id}))
  {
    var list' := list + [DeviceConfig(m[id].id, Hex.Encode(m[id].staticKey))];
    forall x | x in m - (todo - {id})
      ensures exists i :: 0 <= i < |list'| && list'[i].id == x
    {
      if x == id {
        assert list'[|list|].id == x;
      } else {
        assert x in m - todo;
        var i :| 0 <= i < |list| && list[i].id == x;
        assert list'[i].id == x;
      }
    }
  }

  /** Why an upsert is refused, if it is. */
  function Refusal(disk: Disk, deviceID: string, deviceKeyHex: string, saves: bool): Option<StoreError> {
    if deviceID == "" then Some(EmptyID)
    else if KeyOf(deviceKeyHex).Err? then Some(KeyOf(deviceKeyHex).error)
    else if Load(disk).Err? && Load(disk).error != NotPaired then Some(Load(disk).error)
    else if !saves then Some(NotSaved)
    else None
  }

  /** The devices of the store, none if nothing is paired yet. */
  function Existing(disk: Disk): Devices {
    if Load(disk).Ok? then Load(disk).value else map[]
  }

  function Upserted(disk: Disk, deviceID: string, deviceKeyHex: string): Devices
    requires KeyOf(deviceKeyHex).Ok?
  {
    Existing(disk)[deviceID := DeviceState(deviceID, KeyOf(deviceKeyHex).value)]
  }

  lemma ExistingIsSound(disk: Disk, deviceID: string, deviceKeyHex: string)
    requires deviceID != "" && KeyOf(deviceKeyHex).Ok?
    ensures Sound(Upserted(disk, deviceID, deviceKeyHex))
  {
    if disk.File? && Load(disk).Ok? {
      LoadedIsSound(disk.list);
    }
  }

  /** When an upsert is refused, and for what. */
  lemma RefusalMeans(disk: Disk, deviceID: string, deviceKeyHex: string, saves: bool) returns (bad: Option<nat>)
    ensures bad.Some? ==> disk.File? && FirstBad(disk.list, bad.value)
    ensures bad.None? && disk.File? ==> AllGood(disk.list)
    ensures var given, r := DeviceConfig(deviceID, deviceKeyHex), Refusal(disk, deviceID, deviceKeyHex, saves);
            if !GoodEntry(given) then r == Some(Flaw(given))
            else if disk.Unreadable? then r == Some(Unavailable)
            else if bad.Some? then r == Some(Flaw(disk.list[bad.value]))
            else r == if saves then None else Some(NotSaved)
  {
    KeyOfMeans(DeviceConfig(deviceID, deviceKeyHex));
    bad := None;
    if disk.File? {
      bad := LoadsIffAllGood(disk.list);
    }
  }

  // ---- Any sequence of upserts --------------------------------------------------------------------

  datatype Upsert = Upsert(id: string, keyHex: string, saves: bool)

  /** One call of the method above, whatever enumeration order it happened to use. */
  ghost predicate Upserts(before: Disk, u: Upsert, after: Disk) {
    var refusal := Refusal(before, u.id, u.keyHex, u.saves);
    if refusal.Some? then after == before
    else after.File? && Enumerates(after.list, Upserted(before, u.id, u.keyHex))
  }

  ghost predicate UpsertRun(disks: seq<Disk>, us: seq<Upsert>) {
    && |disks| == |us| + 1
    && forall i :: 0 <= i < |us| ==> Upserts(disks[i], us[i], disks[i + 1])
  }

  /** The plain fold of map updates that the store should amount to. */
  function Folded(start: Devices, us: seq<Upsert>): Devices {
    if us == [] then start
    else
      var m, u := Folded(start, us[..|us| - 1]), us[|us| - 1];
      if u.id != "" && KeyOf(u.keyHex).Ok? && u.saves
      then m[u.id := DeviceState(u.id, KeyOf(u.keyHex).value)] else m
  }

  /** This upsert is well formed and its save goes through. */
  ghost predicate TakesEffect(u: Upsert) {
    GoodEntry(DeviceConfig(u.id, u.keyHex)) && u.saves
  }

  /** Upsert `i` is the last one of `id` that takes effect. */
  ghost predicate LastUpsertOf(us: seq<Upsert>, id: string, i: nat) {
    && i < |us| && us[i].id == id && TakesEffect(us[i])
    && forall j :: i < j < |us| && us[j].id == id ==> !TakesEffect(us[j])
  }

  lemma FoldedStep(start: Devices, us: seq<Upsert>)
    requires us != []
    ensures var m, u := Folded(start, us[..|us| - 1]), us[|us| - 1];
            Folded(start, us) == if TakesEffect(u) then m[u.id := DeviceState(u.id, Hex.Decode(u.keyHex).value)] else m
  {
    KeyOfMeans(DeviceConfig(us[|us| - 1].id, us[|us| - 1].keyHex));
  }

  /** What the fold holds for an id: the key of the last upsert of it that took effect, else what was
      there before. */
  lemma {:induction false} LastUpsertWins(start: Devices, us: seq<Upsert>, id: string) returns (i: Option<nat>)
    ensures i.None? ==>
              && (forall j :: 0 <= j < |us| && us[j].id == id ==> !TakesEffect(us[j]))
              && (id in Folded(start, us) <==> id in start)
              && (id in start ==> Folded(start, us)[id] == start[id])
    ensures i.Some? ==>
              && LastUpsertOf(us, id, i.value) && id in Folded(start, us)
              && Folded(start, us)[id] == DeviceState(id, Hex.Decode(us[i.value].keyHex).value)
  {
    if us == [] {
      return None;
    }
    var front, last := us[..|us| - 1], us[|us| - 1];
    FoldedStep(start, us);
    if last.id == id && TakesEffect(last) {
      return Some(|us| - 1);
    }
    i := LastUpsertWins(start, front, id);
  }

  /** One upsert reloads as one map update. */
  lemma UpsertReloads(before: Disk, u: Upsert, after: Disk)
    requires Upserts(before, u, after) && Refusal(before, u.id, u.keyHex, u.saves).None?
    ensures Load(after) == Ok(Upserted(before, u.id, u.keyHex))
    ensures Sound(Load(after).value)
  {
    ExistingIsSound(before, u.id, u.keyHex);
    EnumerationReadsBack(after.list, Upserted(before, u.id, u.keyHex));
    assert after.list != [] by {
      assert u.id in Upserted(before, u.id, u.keyHex);
    }
  }

  /** After any sequence of upserts to a store that was readable or not there yet, in whatever
      order each save enumerated the map, the reloaded store is the fold of the map updates. */
  lemma {:induction false} StoreIsFold(disks: seq<Disk>, us: seq<Upsert>)
    requires UpsertRun(disks, us) && (Load(disks[0]).Ok? || Load(disks[0]).error == NotPaired)
    ensures var end := disks[|us|];
            && (Load(end).Ok? || Load(end).error == NotPaired)
            && Existing(end) == Folded(Existing(disks[0]), us)
            && Sound(Existing(end))
  {
    if us == [] {
      if Load(disks[0]).Ok? {
        LoadedIsSound(disks[0].list);
      }
    } else {
      var n := |us| - 1;
      StoreIsFold(disks[..n + 1], us[..n]);
      assert Upserts(disks[n], us[n], disks[n + 1]);
      if Refusal(disks[n], us[n].id, us[n].keyHex, us[n].saves).None? {
        UpsertReloads(disks[n], us[n], disks[n + 1]);
      }
    }
  }
}
